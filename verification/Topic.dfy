/** bot/slack_topic_manager.go: the sign in the channel topic, and when it can be trusted. */
module Topic {
  import opened Text

  const IN_PROGRESS := ":no_entry:"
  const DONE := ":white_check_mark:"

  /** What the topic becomes when a deploy starts. */
  function Mark(topic: string): string { ReplaceAll(topic, DONE, IN_PROGRESS) }

  /** What the topic becomes when the last deploy has completed or was aborted. */
  function Unmark(topic: string): string { ReplaceAll(topic, IN_PROGRESS, DONE) }

  /** Stepping over the done emojis from left to right, one never stands before a :no_entry: */
  predicate Restorable(topic: string) { SwapsBack(topic, DONE_NAME, IN_PROGRESS_NAME) }

  /** No two done emojis share a colon. */
  predicate NoOverlap(topic: string) {
    !Contains(topic, ":white_check_mark:white_check_mark:")
  }

  const DONE_NAME := "white_check_mark"
  const IN_PROGRESS_NAME := "no_entry"

  lemma TheEmojis()
    ensures DONE == Emoji(DONE_NAME) && IN_PROGRESS == Emoji(IN_PROGRESS_NAME)
    ensures ":white_check_mark:white_check_mark:" == Emoji(DONE_NAME) + DONE_NAME + ":"
    ensures IsName(DONE_NAME) && IsName(IN_PROGRESS_NAME) && DONE_NAME != IN_PROGRESS_NAME
  {
    assert DONE_NAME[0] != IN_PROGRESS_NAME[0];
  }

  // ---- replacing one emoji by another, whatever their names ----

  predicate IsName(s: string) {
    s != "" && forall i :: 0 <= i < |s| ==> s[i] != ':'
  }

  function Emoji(name: string): string { ":" + name + ":" }

  function Swap(t: string, a: string, b: string): string {
    ReplaceAll(t, Emoji(a), Emoji(b))
  }

  /** Stepping over the a emojis from left to right, one never stands before a b emoji. */
  predicate SwapsBack(t: string, a: string, b: string)
    decreases |t|
  {
    if t == "" then true
    else if Emoji(a) <= t then SwapsBack(t[|a| + 2..], a, b)
    else !(Emoji(b) <= t) && SwapsBack(t[1..], a, b)
  }

  /** A string begins with at most one name and the colon behind it. */
  lemma NameIsUnique(t: string, a: string, b: string)
    requires IsName(a) && IsName(b) && a + ":" <= t && b + ":" <= t
    ensures a == b
  {
    assert (a + ":")[|a|] == t[|a|] && (b + ":")[|b|] == t[|b|];
    assert t[..|a|] == a && t[..|b|] == b;
  }

  lemma EmojiPrefix(t: string, a: string)
    ensures Emoji(a) <= t <==> t != "" && t[0] == ':' && a + ":" <= t[1..]
    ensures Emoji(a) <= t ==> t == Emoji(a) + t[|a| + 2..]
  {
    assert Emoji(a) == [':'] + (a + ":");
    if t != "" {
      assert t == [t[0]] + t[1..];
    }
  }

  lemma AtMostOneEmoji(t: string, a: string, b: string)
    requires IsName(a) && IsName(b) && a != b
    ensures !(Emoji(a) <= t && Emoji(b) <= t)
  {
    EmojiPrefix(t, a);
    EmojiPrefix(t, b);
    if Emoji(a) <= t && Emoji(b) <= t {
      NameIsUnique(t[1..], a, b);
    }
  }

  /** One step of the scan that replaces a by b. */
  lemma SwapStep(t: string, a: string, b: string)
    requires t != ""
    ensures Emoji(a) <= t ==> Swap(t, a, b) == Emoji(b) + Swap(t[|a| + 2..], a, b)
    ensures !(Emoji(a) <= t) ==> Swap(t, a, b) == [t[0]] + Swap(t[1..], a, b)
    ensures Swap(t, a, b) != "" && Swap(t, a, b)[0] == t[0]
  {
  }

  /** Everything up to the first colon survives. */
  lemma {:induction false} FirstNameSurvives(x: string, t: string, a: string, b: string)
    requires x == "" || IsName(x)
    ensures x + ":" <= Swap(t, a, b) <==> x + ":" <= t
    decreases |x|
  {
    if t != "" {
      SwapStep(t, a, b);
      if x == "" {
        assert x + ":" == ":";
      } else if t[0] == ':' {
        assert (x + ":")[0] == x[0] != ':';
      } else {
        FirstNameSurvives(x[1..], t[1..], a, b);
        PrefixStep(x, t);
        PrefixStep(x, Swap(t, a, b));
      }
    }
  }

  lemma PrefixStep(x: string, t: string)
    requires x != "" && t != ""
    ensures x + ":" <= t <==> x[0] == t[0] && x[1..] + ":" <= t[1..]
  {
    assert x + ":" == [x[0]] + (x[1..] + ":");
  }

  /** Whether an emoji stands at the front does not change, if none is replaced there. */
  lemma FrontSurvives(t: string, a: string, b: string, x: string)
    requires IsName(x) && t != "" && !(Emoji(a) <= t)
    ensures Emoji(x) <= Swap(t, a, b) <==> Emoji(x) <= t
  {
    SwapStep(t, a, b);
    FirstNameSurvives(x, t[1..], a, b);
    EmojiPrefix(t, x);
    EmojiPrefix(Swap(t, a, b), x);
    assert Swap(t, a, b)[1..] == Swap(t[1..], a, b);
  }

  lemma SamePrefix(p: string, x: string, y: string)
    ensures p + x == p + y <==> x == y
  {
    assert (p + x)[|p|..] == x && (p + y)[|p|..] == y;
  }

  // ---- swapped and swapped back ----

  lemma {:induction false} SwapsBackIff(t: string, a: string, b: string)
    requires IsName(a) && IsName(b) && a != b
    ensures Swap(Swap(t, a, b), b, a) == t <==> SwapsBack(t, a, b)
    decreases |t|
  {
    if t == "" {
    } else if Emoji(a) <= t {
      var rest := t[|a| + 2..];
      var s := Swap(t, a, b);
      SwapStep(t, a, b);
      SwapStep(s, b, a);
      assert s[|b| + 2..] == Swap(rest, a, b);
      EmojiPrefix(t, a);
      SamePrefix(Emoji(a), Swap(Swap(rest, a, b), b, a), rest);
      SwapsBackIff(rest, a, b);
    } else {
      var rest := t[1..];
      var s := Swap(t, a, b);
      SwapStep(t, a, b);
      SwapStep(s, b, a);
      FrontSurvives(t, a, b, b);
      if Emoji(b) <= t {
        assert Emoji(a) <= Swap(s, b, a);
        AtMostOneEmoji(t, a, b);
      } else {
        assert s[1..] == Swap(rest, a, b);
        assert t == [t[0]] + rest;
        SamePrefix([t[0]], Swap(Swap(rest, a, b), b, a), rest);
        SwapsBackIff(rest, a, b);
      }
    }
  }

  // ---- swapped twice ----

  /** Behind the a emoji at the front the name of another one follows at once. */
  predicate OverlapHere(t: string, a: string) {
    Emoji(a) <= t && a + ":" <= t[|a| + 2..]
  }

  lemma OverlapHereIff(t: string, a: string)
    ensures OverlapHere(t, a) <==> Emoji(a) + a + ":" <= t
  {
    assert Emoji(a) + a + ":" == Emoji(a) + (a + ":");
    EmojiPrefix(t, a);
  }

  lemma {:induction false} SwapTwiceIff(t: string, a: string, b: string)
    requires IsName(a) && IsName(b) && a != b
    ensures Swap(Swap(t, a, b), a, b) == Swap(t, a, b) <==> !Contains(t, Emoji(a) + a + ":")
    decreases |t|
  {
    if t == "" {
    } else {
      OverlapStep(t, a);
      if Emoji(a) <= t {
        SwapTwiceBehind(t, a, b);
        SwapTwiceIff(t[|a| + 2..], a, b);
      } else {
        SwapStep(t, a, b);
        FrontSurvives(t, a, b, a);
        SwapStep(Swap(t, a, b), a, b);
        assert Swap(t, a, b)[1..] == Swap(t[1..], a, b);
        SamePrefix([t[0]], Swap(Swap(t[1..], a, b), a, b), Swap(t[1..], a, b));
        SwapTwiceIff(t[1..], a, b);
      }
    }
  }

  /** Behind a replaced emoji the second scan goes on from the closing colon. */
  lemma SwapTwiceBehind(t: string, a: string, b: string)
    requires IsName(a) && IsName(b) && a != b && Emoji(a) <= t
    ensures var rest := t[|a| + 2..];
      Swap(Swap(t, a, b), a, b) == Swap(t, a, b) <==>
      !OverlapHere(t, a) && Swap(Swap(rest, a, b), a, b) == Swap(rest, a, b)
  {
    var rest := t[|a| + 2..];
    var tail := ":" + Swap(rest, a, b);
    SwapStep(t, a, b);
    assert Swap(t, a, b) == ":" + b + tail;
    SwapSkipsName(b, tail, a, b);
    SamePrefix(":" + b, Swap(tail, a, b), tail);
    EmojiPrefix(tail, a);
    FirstNameSurvives(a, rest, a, b);
    SwapStep(tail, a, b);
    assert tail[1..] == Swap(rest, a, b);
    if Emoji(a) <= tail {
      AtMostOneEmoji(tail, a, b);
      assert Emoji(b) <= Swap(tail, a, b);
    } else {
      SamePrefix(":", Swap(Swap(rest, a, b), a, b), Swap(rest, a, b));
    }
  }

  /** An opening colon and another name are stepped over. */
  lemma SwapSkipsName(x: string, tail: string, a: string, b: string)
    requires IsName(a) && IsName(x) && x != a && ":" <= tail
    ensures Swap(":" + x + tail, a, b) == ":" + x + Swap(tail, a, b)
  {
    var t := ":" + x + tail;
    assert t[1..] == x + tail && x + ":" <= x + tail;
    EmojiPrefix(t, a);
    if Emoji(a) <= t {
      NameIsUnique(x + tail, a, x);
    }
    SwapStep(t, a, b);
    SwapSkips(x, tail, a, b);
  }

  lemma {:induction false} SwapSkips(x: string, tail: string, a: string, b: string)
    requires x == "" || IsName(x)
    ensures Swap(x + tail, a, b) == x + Swap(tail, a, b)
  {
    if x == "" {
      assert x + tail == tail;
    } else {
      assert (x + tail)[0] == x[0] && (x + tail)[1..] == x[1..] + tail;
      EmojiPrefix(x + tail, a);
      SwapStep(x + tail, a, b);
      SwapSkips(x[1..], tail, a, b);
    }
  }

  lemma ContainsInSuffix(t: string, k: nat, pat: string)
    requires k <= |t|
    ensures Contains(t[k..], pat) ==> Contains(t, pat)
  {
    if i :| 0 <= i <= |t[k..]| && OccursAt(t[k..], i, pat) {
      assert t[k..][i..i + |pat|] == t[k + i..k + i + |pat|];
      assert OccursAt(t, k + i, pat);
    }
  }

  lemma ContainsInPrefixOrSuffix(t: string, k: nat, pat: string)
    requires k <= |t| && Contains(t, pat)
    ensures Contains(t[k..], pat) || exists i :: 0 <= i < k && OccursAt(t, i, pat)
  {
    var i :| 0 <= i <= |t| && OccursAt(t, i, pat);
    if i >= k {
      assert t[k..][i - k..i - k + |pat|] == t[i..i + |pat|];
      assert OccursAt(t[k..], i - k, pat);
    }
  }

  lemma OverlapStep(t: string, a: string)
    requires t != "" && IsName(a)
    ensures var k := if Emoji(a) <= t then |a| + 2 else 1;
      Contains(t, Emoji(a) + a + ":") <==> OverlapHere(t, a) || Contains(t[k..], Emoji(a) + a + ":")
  {
    var k, pat := if Emoji(a) <= t then |a| + 2 else 1, Emoji(a) + a + ":";
    OverlapHereIff(t, a);
    ContainsInSuffix(t, k, pat);
    if pat <= t {
      assert OccursAt(t, 0, pat);
    }
    if Contains(t, pat) {
      ContainsInPrefixOrSuffix(t, k, pat);
      if i :| 0 < i < k && OccursAt(t, i, pat) {
        OverlapInside(t, i, a);
      }
    }
  }

  /** An overlap that begins inside an emoji begins at its closing colon. */
  lemma OverlapInside(t: string, i: nat, a: string)
    requires IsName(a) && Emoji(a) <= t && 0 < i < |a| + 2 && OccursAt(t, i, Emoji(a) + a + ":")
    ensures OverlapHere(t, a)
  {
    var u := t[i..];
    assert Emoji(a) + a + ":" <= u;
    EmojiPrefix(u, a);
    assert t[i] == ':' && t[i] == Emoji(a)[i];
    assert i == |a| + 1;
    assert u[1..] == t[|a| + 2..];
  }

  // ---- the topic ----

  /** A topic marked and unmarked again is the old topic exactly if it is restorable. */
  lemma RestoredIff(t: string)
    ensures Unmark(Mark(t)) == t <==> Restorable(t)
  {
    TheEmojis();
    SwapsBackIff(t, DONE_NAME, IN_PROGRESS_NAME);
  }

  lemma {:induction false} WithoutSwapsBack(t: string, a: string, b: string)
    requires !Contains(t, Emoji(b))
    ensures SwapsBack(t, a, b)
    decreases |t|
  {
    if t != "" {
      var k := if Emoji(a) <= t then |a| + 2 else 1;
      if Emoji(b) <= t {
        assert OccursAt(t, 0, Emoji(b));
      }
      ContainsInSuffix(t, k, Emoji(b));
      WithoutSwapsBack(t[k..], a, b);
    }
  }

  /** In particular a topic without :no_entry: is always restored, even where done emojis share a colon. */
  lemma CleanTopicIsRestored(t: string)
    requires !Contains(t, IN_PROGRESS)
    ensures Restorable(t) && Unmark(Mark(t)) == t
  {
    TheEmojis();
    WithoutSwapsBack(t, DONE_NAME, IN_PROGRESS_NAME);
    RestoredIff(t);
  }

  /** Marking twice, as two deploys in a row do, is marking once exactly if no two done emojis overlap. */
  lemma MarkTwiceIff(t: string)
    ensures Mark(Mark(t)) == Mark(t) <==> NoOverlap(t)
  {
    TheEmojis();
    SwapTwiceIff(t, DONE_NAME, IN_PROGRESS_NAME);
  }

  /** A scan changes the text exactly if it contains what is scanned for. */
  lemma {:induction false} SwapChangesIff(t: string, a: string, b: string)
    requires IsName(a) && IsName(b) && a != b
    ensures Swap(t, a, b) != t <==> Contains(t, Emoji(a))
    decreases |t|
  {
    if t == "" {
    } else if Emoji(a) <= t {
      assert OccursAt(t, 0, Emoji(a));
      SwapStep(t, a, b);
      AtMostOneEmoji(t, a, b);
      assert Emoji(b) <= Swap(t, a, b);
    } else {
      SwapStep(t, a, b);
      SamePrefix([t[0]], Swap(t[1..], a, b), t[1..]);
      assert t == [t[0]] + t[1..];
      SwapChangesIff(t[1..], a, b);
      ContainsInSuffix(t, 1, Emoji(a));
      if Contains(t, Emoji(a)) {
        ContainsInPrefixOrSuffix(t, 1, Emoji(a));
      }
    }
  }

  lemma MarkChangesIff(t: string)
    ensures Mark(t) != t <==> Contains(t, DONE)
    ensures Unmark(t) != t <==> Contains(t, IN_PROGRESS)
  {
    TheEmojis();
    SwapChangesIff(t, DONE_NAME, IN_PROGRESS_NAME);
    SwapChangesIff(t, IN_PROGRESS_NAME, DONE_NAME);
  }

  /** A topic that keeps its sign through any sequence of deploys. */
  predicate Dependable(t: string) { Restorable(t) && NoOverlap(t) }

  /** Marking a dependable topic with a done emoji replaces every done emoji by a :no_entry: */
  lemma MarkedShowsInProgress(t: string)
    requires Dependable(t)
    ensures !Contains(Mark(t), DONE)
    ensures Contains(t, DONE) ==> Contains(Mark(t), IN_PROGRESS)
  {
    MarkTwiceIff(t);
    RestoredIff(t);
    MarkChangesIff(t);
    MarkChangesIff(Mark(t));
  }

  /** The topics of the channels as Slack keeps them; a channel that is not there cannot be read. */
  class SlackTopicManager {
    var topics: map<string, string>
    /** The calls of SetConversationTopic. */
    var writes: seq<(string, string)>

    constructor (topics: map<string, string>)
      ensures this.topics == topics && writes == []
    {
      this.topics, writes := topics, [];
    }

    /** Slack is written to exactly if the topic contains the emoji to be replaced. */
    method ChannelTopicReplace(ch: string, old_: string, new_: string) returns (ok: bool)
      requires old_ != ""
      modifies this
      ensures ok == (ch in old(topics))
      ensures topics == if ok then old(topics)[ch := ReplaceAll(old(topics)[ch], old_, new_)] else old(topics)
      ensures writes == if topics == old(topics) then old(writes) else old(writes) + [(ch, topics[ch])]
    {
      if ch !in topics {
        return false;
      }
      var currentTopic := topics[ch];
      var newTopic := ReplaceAll(currentTopic, old_, new_);
      if newTopic == currentTopic {
        assert topics == topics[ch := newTopic];
        return true;
      }
      topics, writes := topics[ch := newTopic], writes + [(ch, newTopic)];
      assert topics[ch] != old(topics)[ch];
      return true;
    }

    method DeployStarted(ch: string)
      modifies this
      ensures topics == if ch in old(topics) then old(topics)[ch := Mark(old(topics)[ch])] else old(topics)
    {
      var _ := ChannelTopicReplace(ch, DONE, IN_PROGRESS);
    }

    method DeployCompleted(ch: string)
      modifies this
      ensures topics == if ch in old(topics) then old(topics)[ch := Unmark(old(topics)[ch])] else old(topics)
    {
      var _ := ChannelTopicReplace(ch, IN_PROGRESS, DONE);
    }

    method DeployAborted(ch: string)
      modifies this
      ensures topics == if ch in old(topics) then old(topics)[ch := Unmark(old(topics)[ch])] else old(topics)
    {
      var _ := ChannelTopicReplace(ch, IN_PROGRESS, DONE);
    }
  }
}
