/**
 * slack/instant_messenger.go: a cache behind double-checked locking, as interleaved steps of any number of senders.
 * Each sender runs SendMessage once; a step is everything between two points where another sender may come in.
 */
module Messenger {
  import opened Text

  /** Where a sender is in SendMessage. */
  datatype PC =
    | Begin                   // before mu.RLock
    | Reading                 // holding the read lock
    | Missed                  // between mu.RUnlock and mu.Lock
    | Checking                // holding the lock, before the second look
    | Opening                 // holding the lock, calling OpenIMChannel
    | Opened(channel: string) // holding the lock, the call has succeeded
    | Leaving(result: Option<string>) // holding the lock, about to unlock: a channel or an error
    | Posting(channel: string)
    | Done

  /** The calls of the Slack API that took effect. */
  datatype Call = Open(name: string, channel: string) | OpenFailed(name: string) | Post(name: string, channel: string)

  type Sender = nat

  /**
   * The senders, the users they write to, the lock, the cache and the calls so far. The lock is held by one writer
   * or by a set of readers.
   */
  datatype State = State(
    pc: seq<PC>,
    names: seq<string>,
    writer: Option<Sender>,
    readers: set<Sender>,
    channels: map<string, string>,
    calls: seq<Call>)

  predicate Initial(s: State) {
    && |s.pc| == |s.names| && (forall i :: 0 <= i < |s.pc| ==> s.pc[i] == Begin)
    && s.writer == None && s.readers == {} && s.channels == map[] && s.calls == []
  }

  /** What the API answers, should the step ask it. */
  type Answer = Option<string>

  /** Whether sender i can take a step: it waits for the lock at two places. */
  predicate Enabled(s: State, i: Sender)
    requires i < |s.pc|
  {
    match s.pc[i]
    case Begin => s.writer == None
    case Missed => s.writer == None && s.readers == {}
    case Done => false
    case _ => true
  }

  /** The step of sender i. */
  function Step(s: State, i: Sender, answer: Answer): State
    requires i < |s.pc| == |s.names|
  {
    var name := s.names[i];
    match s.pc[i]
    case Begin => s.(pc := s.pc[i := Reading], readers := s.readers + {i})
    case Reading =>
      s.(pc := s.pc[i := if name in s.channels then Posting(s.channels[name]) else Missed], readers := s.readers - {i})
    case Missed => s.(pc := s.pc[i := Checking], writer := Some(i))
    case Checking => s.(pc := s.pc[i := if name in s.channels then Leaving(Some(s.channels[name])) else Opening])
    case Opening =>
      (match answer
       case Some(channel) => s.(pc := s.pc[i := Opened(channel)], calls := s.calls + [Open(name, channel)])
       case None => s.(pc := s.pc[i := Leaving(None)], calls := s.calls + [OpenFailed(name)]))
    case Opened(channel) => s.(pc := s.pc[i := Leaving(Some(channel))], channels := s.channels[name := channel])
    case Leaving(result) =>
      s.(pc := s.pc[i := if result.Some? then Posting(result.value) else Done], writer := None)
    case Posting(channel) => s.(pc := s.pc[i := Done], calls := s.calls + [Post(name, channel)])
    case Done => s
  }

  /** A run: at each step some sender that can go on does. */
  ghost predicate IsRun(states: seq<State>) {
    && states != [] && Initial(states[0])
    && forall n :: 0 <= n < |states| - 1 ==> IsStep(states[n], states[n + 1])
  }

  ghost predicate IsStep(s: State, s': State) {
    |s.pc| == |s.names| && exists i: Sender, answer: Answer :: i < |s.pc| && Enabled(s, i) && s' == Step(s, i, answer)
  }

  // ---- the invariant ----

  predicate HoldsLock(pc: PC) {
    pc.Checking? || pc.Opening? || pc.Opened? || pc.Leaving?
  }

  /** The lock is held by exactly those senders whose place in the code says so, by one writer or by readers. */
  ghost predicate LockFits(s: State) {
    && (forall i :: 0 <= i < |s.pc| ==> (HoldsLock(s.pc[i]) <==> s.writer == Some(i)))
    && (s.writer.Some? ==> s.writer.value < |s.pc| && s.readers == {})
    && (forall i :: i in s.readers <==> 0 <= i < |s.pc| && s.pc[i].Reading?)
  }

  /** name is written to on the channel in the cache. */
  predicate Cached(s: State, name: string, channel: string) {
    name in s.channels && s.channels[name] == channel
  }

  /** A sender that knows a channel has it from the cache, and one about to open a channel has found none there. */
  ghost predicate SendersFit(s: State)
    requires |s.pc| == |s.names|
  {
    forall i :: 0 <= i < |s.pc| ==>
      match s.pc[i]
      case Opening => s.names[i] !in s.channels
      case Opened(channel) => s.names[i] !in s.channels && Open(s.names[i], channel) in s.calls
      case Leaving(Some(channel)) => Cached(s, s.names[i], channel)
      case Posting(channel) => Cached(s, s.names[i], channel)
      case _ => true
  }

  /** Sender i has opened the channel and not stored it yet. */
  predicate HasOpened(s: State, i: Sender, name: string, channel: string)
    requires |s.pc| == |s.names|
  {
    i < |s.pc| && s.names[i] == name && s.pc[i] == Opened(channel)
  }

  /** Every channel opened is in the cache or about to be stored there; every message went to the channel in the cache. */
  ghost predicate CallsFit(s: State)
    requires |s.pc| == |s.names|
  {
    && (forall n :: 0 <= n < |s.calls| ==>
          match s.calls[n]
          case Open(name, channel) =>
            Cached(s, name, channel) || (name !in s.channels && s.writer.Some? && HasOpened(s, s.writer.value, name, channel))
          case OpenFailed(_) => true
          case Post(name, channel) => Cached(s, name, channel))
    && (forall name :: name in s.channels ==> Open(name, s.channels[name]) in s.calls)
  }

  /** No name is opened twice. */
  ghost predicate OpenedOnce(calls: seq<Call>) {
    forall m, n :: 0 <= m < n < |calls| && calls[m].Open? && calls[n].Open? ==> calls[m].name != calls[n].name
  }

  ghost predicate Fits(s: State) {
    |s.pc| == |s.names| && LockFits(s) && SendersFit(s) && CallsFit(s) && OpenedOnce(s.calls)
  }

  lemma StepKeepsLock(s: State, i: Sender, answer: Answer)
    requires |s.pc| == |s.names| && LockFits(s) && i < |s.pc| && Enabled(s, i)
    ensures LockFits(Step(s, i, answer))
  {
  }

  lemma StepKeepsSenders(s: State, i: Sender, answer: Answer)
    requires Fits(s) && i < |s.pc| && Enabled(s, i)
    ensures SendersFit(Step(s, i, answer))
  {
    var s' := Step(s, i, answer);
    forall j | 0 <= j < |s.pc| && j != i
      ensures s'.pc[j] == s.pc[j]
      ensures s.pc[i].Opened? ==> !HoldsLock(s.pc[j])
    {
    }
  }

  lemma StepKeepsCalls(s: State, i: Sender, answer: Answer)
    requires Fits(s) && i < |s.pc| && Enabled(s, i)
    ensures CallsFit(Step(s, i, answer)) && OpenedOnce(Step(s, i, answer).calls)
  {
  }

  lemma StepKeepsFits(s: State, s': State)
    requires Fits(s) && IsStep(s, s')
    ensures Fits(s') && s'.names == s.names
  {
    var i: Sender, answer: Answer :| i < |s.pc| && Enabled(s, i) && s' == Step(s, i, answer);
    StepKeepsLock(s, i, answer);
    StepKeepsSenders(s, i, answer);
    StepKeepsCalls(s, i, answer);
  }

  lemma {:induction false} EveryStateFits(states: seq<State>, n: nat)
    requires IsRun(states) && n < |states|
    ensures Fits(states[n])
  {
    if n > 0 {
      EveryStateFits(states, n - 1);
      StepKeepsFits(states[n - 1], states[n]);
    }
  }

  /** Whatever the interleaving, a user name is opened at most once, however many senders write to it. */
  lemma OpenedAtMostOnce(states: seq<State>, n: nat, j: nat, k: nat)
    requires IsRun(states) && n < |states| && j < |states[n].calls| && k < |states[n].calls|
    requires states[n].calls[j].Open? && states[n].calls[k].Open? && states[n].calls[j].name == states[n].calls[k].name
    ensures j == k
  {
    EveryStateFits(states, n);
  }

  /** All messages to a name are posted to the one channel that was opened for it. */
  lemma PostsGoToTheOpenedChannel(states: seq<State>, n: nat, name: string, channel: string)
    requires IsRun(states) && n < |states| && Post(name, channel) in states[n].calls
    ensures Open(name, channel) in states[n].calls
    ensures forall c :: Open(name, c) in states[n].calls || Post(name, c) in states[n].calls ==> c == channel
  {
    var s := states[n];
    EveryStateFits(states, n);
    var k :| 0 <= k < |s.calls| && s.calls[k] == Post(name, channel);
    assert Cached(s, name, channel);
    forall c | Open(name, c) in s.calls || Post(name, c) in s.calls
      ensures c == channel
    {
      var j :| 0 <= j < |s.calls| && (s.calls[j] == Open(name, c) || s.calls[j] == Post(name, c));
      assert Cached(s, name, c);
    }
  }

  lemma StepKeepsCached(s: State, s': State, name: string, channel: string)
    requires Fits(s) && IsStep(s, s') && Cached(s, name, channel)
    ensures Cached(s', name, channel)
  {
    var i: Sender, answer: Answer :| i < |s.pc| && Enabled(s, i) && s' == Step(s, i, answer);
    if s.pc[i].Opened? {
      assert s.names[i] !in s.channels;
    }
  }

  /** A channel once in the cache stays there. */
  lemma {:induction false} CacheNeverChanges(states: seq<State>, k: nat, n: nat, name: string)
    requires IsRun(states) && k <= n < |states| && name in states[k].channels
    ensures Cached(states[n], name, states[k].channels[name])
  {
    if k < n {
      CacheNeverChanges(states, k, n - 1, name);
      EveryStateFits(states, n - 1);
      StepKeepsCached(states[n - 1], states[n], name, states[k].channels[name]);
    }
  }

  // ---- no sender is stuck ----

  /** Some sender can go on unless all are done: the lock cannot deadlock. */
  lemma SomebodyCanGoOn(s: State)
    requires Fits(s) && exists i :: 0 <= i < |s.pc| && s.pc[i] != Done
    ensures exists i: Sender :: i < |s.pc| && Enabled(s, i)
  {
    var i :| 0 <= i < |s.pc| && s.pc[i] != Done;
    if s.writer.Some? {
      assert Enabled(s, s.writer.value);
    } else if s.readers != {} {
      var r :| r in s.readers;
      assert Enabled(s, r);
    } else {
      assert Enabled(s, i);
    }
  }

  /** The steps a sender still has before it, at most. */
  function StepsLeft(pc: PC): nat {
    match pc
    case Begin => 8
    case Reading => 7
    case Missed => 6
    case Checking => 5
    case Opening => 4
    case Opened(_) => 3
    case Leaving(_) => 2
    case Posting(_) => 1
    case Done => 0
  }

  function AllStepsLeft(pc: seq<PC>): nat {
    if pc == [] then 0 else StepsLeft(pc[0]) + AllStepsLeft(pc[1..])
  }

  lemma {:induction false} StepUsesUp(pc: seq<PC>, i: nat, next: PC)
    requires i < |pc| && StepsLeft(next) < StepsLeft(pc[i])
    ensures AllStepsLeft(pc[i := next]) < AllStepsLeft(pc)
  {
    if i == 0 {
      assert pc[i := next][1..] == pc[1..];
    } else {
      assert pc[i := next][1..] == pc[1..][i - 1 := next];
      StepUsesUp(pc[1..], i - 1, next);
    }
  }

  lemma {:induction false} AllStepsLeftBound(pc: seq<PC>)
    ensures AllStepsLeft(pc) <= 8 * |pc|
  {
    if pc != [] {
      AllStepsLeftBound(pc[1..]);
    }
  }

  lemma EveryStepUsesUp(s: State, s': State)
    requires IsStep(s, s')
    ensures AllStepsLeft(s'.pc) < AllStepsLeft(s.pc)
  {
    var i: Sender, answer: Answer :| i < |s.pc| && Enabled(s, i) && s' == Step(s, i, answer);
    StepMovesOne(s, i, answer);
    StepUsesUp(s.pc, i, s'.pc[i]);
  }

  lemma StepMovesOne(s: State, i: Sender, answer: Answer)
    requires i < |s.pc| == |s.names| && Enabled(s, i)
    ensures var pc := Step(s, i, answer).pc;
      i < |pc| && pc == s.pc[i := pc[i]] && StepsLeft(pc[i]) < StepsLeft(s.pc[i])
  {
  }

  lemma {:induction false} RunUsesUp(states: seq<State>, n: nat)
    requires IsRun(states) && n < |states|
    ensures n + AllStepsLeft(states[n].pc) <= 8 * |states[0].pc|
  {
    if n == 0 {
      AllStepsLeftBound(states[0].pc);
    } else {
      RunUsesUp(states, n - 1);
      EveryStepUsesUp(states[n - 1], states[n]);
    }
  }

  ghost predicate AllDone(s: State) {
    forall i :: 0 <= i < |s.pc| ==> s.pc[i] == Done
  }

  /** Nobody can take another step. */
  ghost predicate Stuck(s: State) {
    forall s' :: !IsStep(s, s')
  }

  /** A run takes at most eight steps a sender, and one that cannot go on has served every sender. */
  lemma EveryRunEnds(states: seq<State>)
    requires IsRun(states)
    ensures |states| <= 8 * |states[0].pc| + 1
    ensures Stuck(states[|states| - 1]) ==> AllDone(states[|states| - 1])
  {
    var s := states[|states| - 1];
    RunUsesUp(states, |states| - 1);
    EveryStateFits(states, |states| - 1);
    if !AllDone(s) {
      SomebodyCanGoOn(s);
      var i: Sender :| i < |s.pc| && Enabled(s, i);
      assert IsStep(s, Step(s, i, None));
    }
  }

  // ---- every sender is served ----

  /** The calls made by sender i when it takes s to s', and none if another sender does. */
  function NewCalls(s: State, s': State, i: Sender): seq<Call> {
    if i < |s.pc| && i < |s'.pc| && s.pc[i] != s'.pc[i] && |s.calls| <= |s'.calls| then s'.calls[|s.calls|..] else []
  }

  /** What sender i has asked of the API in the first n steps of a run. */
  function CallsBy(states: seq<State>, n: nat, i: Sender): seq<Call>
    requires n < |states|
  {
    if n == 0 then [] else CallsBy(states, n - 1, i) + NewCalls(states[n - 1], states[n], i)
  }

  /** What a sender writing to name has asked by the time it is at pc. */
  predicate HasAsked(pc: PC, name: string, calls: seq<Call>) {
    match pc
    case Opened(channel) => calls == [Open(name, channel)]
    case Leaving(Some(channel)) => calls == [] || calls == [Open(name, channel)]
    case Leaving(None) => calls == [OpenFailed(name)]
    case Posting(channel) => calls == [] || calls == [Open(name, channel)]
    case Done => IsServed(name, calls)
    case _ => calls == []
  }

  /** One message was posted, to a channel opened for it or found; or else the channel could not be opened. */
  predicate IsServed(name: string, calls: seq<Call>) {
    || (|calls| == 1 && calls[0].Post? && calls[0].name == name)
    || (|calls| == 2 && calls[1].Post? && calls[1].name == name && calls[0] == Open(name, calls[1].channel))
    || calls == [OpenFailed(name)]
  }

  /** The step that leads on from state n. */
  lemma StepOf(states: seq<State>, n: nat) returns (i: Sender, answer: Answer)
    requires IsRun(states) && n + 1 < |states|
    ensures |states[n].pc| == |states[n].names| && i < |states[n].pc| && Enabled(states[n], i)
    ensures states[n + 1] == Step(states[n], i, answer)
  {
    assert IsStep(states[n], states[n + 1]);
    i, answer :| i < |states[n].pc| && Enabled(states[n], i) && states[n + 1] == Step(states[n], i, answer);
  }

  lemma StepAsks(s: State, i: Sender, answer: Answer, j: Sender, calls: seq<Call>)
    requires i < |s.pc| == |s.names| && Enabled(s, i) && j < |s.pc|
    requires HasAsked(s.pc[j], s.names[j], calls)
    ensures var s' := Step(s, i, answer);
      |s'.pc| == |s.pc| && s'.names == s.names && HasAsked(s'.pc[j], s.names[j], calls + NewCalls(s, s', j))
  {
    assert calls + [] == calls;
  }

  lemma {:induction false} EverySenderAsks(states: seq<State>, n: nat, i: Sender)
    requires IsRun(states) && n < |states| && i < |states[0].pc|
    ensures i < |states[n].pc| == |states[n].names| && states[n].names == states[0].names
    ensures HasAsked(states[n].pc[i], states[0].names[i], CallsBy(states, n, i))
  {
    if n > 0 {
      EverySenderAsks(states, n - 1, i);
      var j, answer := StepOf(states, n - 1);
      StepAsks(states[n - 1], j, answer, i, CallsBy(states, n - 1, i));
    }
  }

  /** A sender that is done has posted its message exactly once, or its channel could not be opened. */
  lemma DoneIsServed(states: seq<State>, n: nat, i: Sender)
    requires IsRun(states) && n < |states| && i < |states[0].pc|
    requires i < |states[n].pc| && states[n].pc[i] == Done
    ensures IsServed(states[0].names[i], CallsBy(states, n, i))
  {
    EverySenderAsks(states, n, i);
  }

  // ---- as many messages as senders ----

  /** How often somebody writing to the name was served. */
  function TimesServed(calls: seq<Call>, name: string): nat {
    if calls == [] then 0
    else
      var n := |calls| - 1;
      TimesServed(calls[..n], name) + (if !calls[n].Open? && calls[n].name == name then 1 else 0)
  }

  /** Sender i writes to the name and has been served. */
  predicate Settled(pc: PC, to: string, name: string) {
    to == name && (pc == Done || pc == Leaving(None))
  }

  function SettledSenders(pc: seq<PC>, names: seq<string>, name: string): nat
    requires |pc| == |names|
  {
    if pc == [] then 0
    else
      var n := |pc| - 1;
      SettledSenders(pc[..n], names[..n], name) + (if Settled(pc[n], names[n], name) then 1 else 0)
  }

  /** How many senders write to the name. */
  function SendersTo(names: seq<string>, name: string): nat {
    if names == [] then 0
    else SendersTo(names[..|names| - 1], name) + (if names[|names| - 1] == name then 1 else 0)
  }

  lemma {:induction false} SettledUpdate(pc: seq<PC>, names: seq<string>, name: string, i: nat, next: PC)
    requires i < |pc| == |names|
    ensures SettledSenders(pc[i := next], names, name) + (if Settled(pc[i], names[i], name) then 1 else 0) ==
      SettledSenders(pc, names, name) + (if Settled(next, names[i], name) then 1 else 0)
  {
    var n := |pc| - 1;
    if i == n {
      assert pc[i := next][..n] == pc[..n];
    } else {
      assert pc[i := next][..n] == pc[..n][i := next];
      SettledUpdate(pc[..n], names[..n], name, i, next);
    }
  }

  lemma TimesServedAppend(calls: seq<Call>, more: seq<Call>, name: string)
    requires |more| <= 1
    ensures TimesServed(calls + more, name) ==
      TimesServed(calls, name) + (if |more| == 1 && !more[0].Open? && more[0].name == name then 1 else 0)
  {
    if more == [] {
      assert calls + more == calls;
    } else {
      assert (calls + more)[..|calls|] == calls;
    }
  }

  /** more is what the sender i at place pc asks on its way to next: an answer that settles it, and only then one. */
  predicate Serves(pc: PC, next: PC, name: string, more: seq<Call>) {
    && |more| <= 1 && (more != [] ==> more[0].name == name)
    && ((|more| == 1 && !more[0].Open?) <==> !Settled(pc, name, name) && Settled(next, name, name))
    && (Settled(pc, name, name) ==> Settled(next, name, name))
  }

  lemma StepServes(s: State, i: Sender, answer: Answer) returns (next: PC, more: seq<Call>)
    requires i < |s.pc| == |s.names| && Enabled(s, i)
    ensures var s' := Step(s, i, answer); s'.pc == s.pc[i := next] && s'.names == s.names && s'.calls == s.calls + more
    ensures Serves(s.pc[i], next, s.names[i], more)
  {
    var s' := Step(s, i, answer);
    next, more := s'.pc[i], s'.calls[|s.calls|..];
    assert s.calls + [] == s.calls;
  }

  lemma ServingBalances(pc: seq<PC>, names: seq<string>, i: nat, next: PC, calls: seq<Call>, more: seq<Call>, name: string)
    requires i < |pc| == |names| && Serves(pc[i], next, names[i], more)
    requires TimesServed(calls, name) == SettledSenders(pc, names, name)
    ensures TimesServed(calls + more, name) == SettledSenders(pc[i := next], names, name)
  {
    SettledUpdate(pc, names, name, i, next);
    TimesServedAppend(calls, more, name);
  }

  lemma StepKeepsServed(s: State, i: Sender, answer: Answer, name: string)
    requires i < |s.pc| == |s.names| && Enabled(s, i)
    requires TimesServed(s.calls, name) == SettledSenders(s.pc, s.names, name)
    ensures var s' := Step(s, i, answer);
      && |s'.pc| == |s'.names| && s'.names == s.names
      && TimesServed(s'.calls, name) == SettledSenders(s'.pc, s'.names, name)
  {
    var next, more := StepServes(s, i, answer);
    ServingBalances(s.pc, s.names, i, next, s.calls, more, name);
  }

  lemma {:induction false} ServedBySettled(states: seq<State>, n: nat, name: string)
    requires IsRun(states) && n < |states|
    ensures |states[n].pc| == |states[n].names| && states[n].names == states[0].names
    ensures TimesServed(states[n].calls, name) == SettledSenders(states[n].pc, states[n].names, name)
  {
    if n == 0 {
      NobodyServed(states[0].pc, states[0].names, name);
    } else {
      ServedBySettled(states, n - 1, name);
      var i, answer := StepOf(states, n - 1);
      StepKeepsServed(states[n - 1], i, answer, name);
    }
  }

  lemma {:induction false} NobodyServed(pc: seq<PC>, names: seq<string>, name: string)
    requires |pc| == |names| && forall i :: 0 <= i < |pc| ==> pc[i] == Begin
    ensures SettledSenders(pc, names, name) == 0
  {
    if pc != [] {
      NobodyServed(pc[..|pc| - 1], names[..|pc| - 1], name);
    }
  }

  lemma {:induction false} AllSettled(pc: seq<PC>, names: seq<string>, name: string)
    requires |pc| == |names| && forall i :: 0 <= i < |pc| ==> pc[i] == Done
    ensures SettledSenders(pc, names, name) == SendersTo(names, name)
  {
    if pc != [] {
      AllSettled(pc[..|pc| - 1], names[..|pc| - 1], name);
    }
  }

  /** When nobody can go on, each name was served, by a message posted or a failure to open, once for each of its senders. */
  lemma EverySenderIsServed(states: seq<State>, name: string)
    requires IsRun(states) && Stuck(states[|states| - 1])
    ensures TimesServed(states[|states| - 1].calls, name) == SendersTo(states[0].names, name)
  {
    var s := states[|states| - 1];
    EveryRunEnds(states);
    ServedBySettled(states, |states| - 1, name);
    AllSettled(s.pc, s.names, name);
  }
}
