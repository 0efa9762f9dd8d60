/** bot/bot.go over the heap: the bot serves requests exactly as the protocol on values says. */
module BotOnHeap {
  import opened Text
  import opened Clock
  import opened Deploys
  import opened InMemory
  import opened HistoryQueries
  import opened BotProtocol
  import P = ChannelProtocol
  import opened ChannelDeploysOnHeap

  class Bot {
    const deploys: ChannelDeploys
    /** The events raised so far; every handler is sent them in this order. */
    var events: seq<Event>

    ghost predicate Valid()
      reads this, deploys, deploys.store, deploys.store.mem.Keys
    {
      deploys.Valid()
    }

    /** The heap holds the world w. */
    ghost predicate Holds(w: World)
      reads this, deploys.store
    {
      events == w.events && forall ch :: deploys.View(ch) == w.At(ch)
    }

    constructor (deploys: ChannelDeploys)
      requires deploys.Valid() && deploys.store.m == map[] && deploys.store.h == map[]
      ensures Valid() && this.deploys == deploys && Holds(INITIAL_WORLD)
    {
      this.deploys := deploys;
      events := [];
    }

    method ServeHTTP(r: Request, ghost w: World) returns (answer: Response)
      requires Valid() && Holds(w)
      modifies this, deploys`listings, deploys.store`m, deploys.store`h, deploys.store`mem, deploys.store.mem.Keys
      ensures Valid() && Holds(Serve(w, r).0) && answer == Serve(w, r).1
      ensures old(deploys.listings) <= deploys.listings
      ensures ListingsAged(old(deploys.listings), old(deploys.store.mem), deploys.store.mem)
      ensures forall a :: a in deploys.store.mem ==> a in old(deploys.store.mem) || fresh(a)
    {
      if !r.isPost {
        return OnlyPost;
      }
      if !r.verified {
        return InvalidSignature;
      }
      if r.command != "/deploy" {
        return CommandNotSupported(r.command);
      }
      match ParseCommand(r.text) {
        case HelpCommand => answer := Help;
        case StatusCommand => answer := ServeStatus(r, w);
        case DoneCommand => answer := ServeDone(r, w);
        case AbortCommand(reason) => answer := ServeAbort(r, reason, w);
        case HistoryCommand =>
          answer := if r.token.Some? then HistoryLink(r.channelID, r.token.value) else HistoryError;
        case StartCommand => answer := ServeStart(r, w);
      }
    }

    method ServeStatus(r: Request, ghost w: World) returns (answer: Response)
      requires Valid() && Holds(w)
      modifies deploys`listings, deploys.store`m, deploys.store`mem
      ensures Valid() && Holds(w) && answer == Obey(w, r, StatusCommand).1
      ensures old(deploys.listings) <= deploys.listings
      ensures ListingsAged(old(deploys.listings), old(deploys.store.mem), deploys.store.mem)
      ensures forall a :: a in deploys.store.mem ==> a in old(deploys.store.mem) || fresh(a)
    {
      var listing := deploys.All(r.channelID);
      if listing.len == 0 {
        answer := NoRunningDeploys;
      } else {
        answer := DeployStatus(listing.arr[listing.off..listing.End()]);
      }
    }

    /** Raises the event that follows a completion. */
    method RaiseHandover(ch: string, drained: Event, ghost w: World) returns (next: Option<Deploy>)
      requires Valid() && Holds(w)
      modifies this`events, deploys.store`m, deploys.store`mem
      ensures Valid() && Holds(Handover(w, ch, drained)) && next == Head(w.At(ch))
      ensures ListingsAged(deploys.listings, old(deploys.store.mem), deploys.store.mem)
      ensures forall a :: a in deploys.store.mem ==> a in old(deploys.store.mem) || fresh(a)
    {
      var d, started := deploys.Current(ch);
      if started {
        next := Some(d);
        events := events + [DeployStarted(ch, d)];
      } else {
        next := None;
        events := events + [drained];
      }
    }

    method ServeDone(r: Request, ghost w: World) returns (answer: Response)
      requires Valid() && Holds(w)
      modifies this`events, deploys.store`m, deploys.store`h, deploys.store`mem, deploys.store.mem.Keys
      ensures Valid() && Holds(Done(w, r).0) && answer == Done(w, r).1
      ensures ListingsAged(deploys.listings, old(deploys.store.mem), deploys.store.mem)
      ensures forall a :: a in deploys.store.mem ==> a in old(deploys.store.mem) || fresh(a)
    {
      var d, ok := deploys.Finish(r.channelID, r.now, r.later);
      if !ok {
        return NoRunningDeploys;
      }
      ghost var mem := deploys.store.mem;
      ghost var w' := w.With(r.channelID, P.Finish(w.At(r.channelID), r.now, r.later).0);
      var next := RaiseHandover(r.channelID, DeployCompleted(r.channelID, d), w');
      ListingsAgedTransitive(deploys.listings, old(deploys.store.mem), mem, deploys.store.mem);
      answer := if d.user.id == r.user.id then DeployDone(d, next) else DeployInterrupted(d, r.user, next);
    }

    method ServeAbort(r: Request, reason: string, ghost w: World) returns (answer: Response)
      requires Valid() && Holds(w)
      modifies this`events, deploys.store`m, deploys.store`h, deploys.store`mem, deploys.store.mem.Keys
      ensures Valid() && Holds(AbortOrLeave(w, r, reason).0) && answer == AbortOrLeave(w, r, reason).1
      ensures ListingsAged(deploys.listings, old(deploys.store.mem), deploys.store.mem)
      ensures forall a :: a in deploys.store.mem ==> a in old(deploys.store.mem) || fresh(a)
    {
      var current, ok := deploys.Current(r.channelID);
      ghost var mem := deploys.store.mem;
      if !ok {
        return NoRunningDeploys;
      }
      if current.user.id == r.user.id {
        answer := AbortOwn(r, reason, w);
      } else {
        answer := LeaveOther(r, reason, w);
      }
      ListingsAgedTransitive(deploys.listings, old(deploys.store.mem), mem, deploys.store.mem);
    }

    method LeaveOther(r: Request, ghost reason: string, ghost w: World) returns (answer: Response)
      requires Valid() && Holds(w)
      requires Head(w.At(r.channelID)).Some? && Head(w.At(r.channelID)).value.user.id != r.user.id
      modifies deploys.store`m, deploys.store`mem
      ensures Valid() && Holds(AbortOrLeave(w, r, reason).0) && answer == AbortOrLeave(w, r, reason).1
      ensures ListingsAged(deploys.listings, old(deploys.store.mem), deploys.store.mem)
      ensures forall a :: a in deploys.store.mem ==> a in old(deploys.store.mem) || fresh(a)
    {
      var left := deploys.LeaveQueue(r.channelID, r.user);
      answer := if left then UserLeftTheQueue else NotInTheQueue;
    }

    method AbortOwn(r: Request, reason: string, ghost w: World) returns (answer: Response)
      requires Valid() && Holds(w)
      requires Head(w.At(r.channelID)).Some? && Head(w.At(r.channelID)).value.user.id == r.user.id
      modifies this`events, deploys.store`m, deploys.store`h, deploys.store`mem, deploys.store.mem.Keys
      ensures Valid() && Holds(AbortOrLeave(w, r, reason).0) && answer == AbortOrLeave(w, r, reason).1
      ensures ListingsAged(deploys.listings, old(deploys.store.mem), deploys.store.mem)
      ensures forall a :: a in deploys.store.mem ==> a in old(deploys.store.mem) || fresh(a)
    {
      var d, _ := deploys.Abort(r.channelID, reason, r.now, r.later);
      ghost var mem := deploys.store.mem;
      ghost var w' := w.With(r.channelID, P.Abort(w.At(r.channelID), reason, r.now, r.later).0);
      var next := RaiseHandover(r.channelID, DeployAborted(r.channelID, d), w');
      ListingsAgedTransitive(deploys.listings, old(deploys.store.mem), mem, deploys.store.mem);
      answer := DeployWasAborted(reason, r.user, next);
    }

    method ServeStart(r: Request, ghost w: World) returns (answer: Response)
      requires Valid() && Holds(w)
      modifies this`events, deploys.store`m, deploys.store`mem, deploys.store.mem.Keys
      ensures Valid() && Holds(Announce(w, r, Proposed(r)).0) && answer == Announce(w, r, Proposed(r)).1
      ensures ListingsAged(deploys.listings, old(deploys.store.mem), deploys.store.mem)
      ensures forall a :: a in deploys.store.mem ==> a in old(deploys.store.mem) || fresh(a)
    {
      answer := ServeNew(r, Proposed(r), w);
    }

    method ServeNew(r: Request, d: Deploy, ghost w: World) returns (answer: Response)
      requires Valid() && Holds(w)
      modifies this`events, deploys.store`m, deploys.store`mem, deploys.store.mem.Keys
      ensures Valid() && Holds(Announce(w, r, d).0) && answer == Announce(w, r, d).1
      ensures ListingsAged(deploys.listings, old(deploys.store.mem), deploys.store.mem)
      ensures forall a :: a in deploys.store.mem ==> a in old(deploys.store.mem) || fresh(a)
    {
      var result := deploys.Start(r.channelID, d, r.now);
      match result {
        case InProgress(current) => answer := DeployInProgress(current);
        case AlreadyInQueue(d) => answer := UserIsInQueue(d.user);
        case Started(d) =>
          events := events + [DeployStarted(r.channelID, d)];
          answer := DeployAnnouncement(d);
      }
    }

    /** What the listings and extracts show, read from the heap and read from its mirror. */
    lemma HandedOut()
      requires Valid()
      ensures forall l :: l in deploys.listings ==> l.Valid() && l.Contents() == Show(l, deploys.store.mem)
      ensures forall e :: e in deploys.store.extracts ==> e.Valid() && e.Contents() == deploys.store.extracts[e]
    {
      forall l | l in deploys.listings
        ensures l.Valid() && l.Contents() == Show(l, deploys.store.mem)
      {
        deploys.store.Mirrored(l);
      }
      forall e | e in deploys.store.extracts
        ensures e.Valid() && e.Contents() == deploys.store.extracts[e]
      {
        deploys.store.Mirrored(e);
      }
    }

    /** The dashboard, which shares the store, asks for a history. What it is shown is its own copy or an extract. */
    method ShowHistory(ch: string, since: Option<Time>, ghost w: World) returns (shown: Items)
      requires Valid() && Holds(w)
      modifies deploys.store`extracts, deploys.store`mem
      ensures Valid() && Holds(w)
      ensures shown.Valid() && shown.Contents() ==
              match since case None => w.At(ch).history case Some(t) => SuffixSince(w.At(ch).history, t)
      ensures since.Some? ==> shown in deploys.store.extracts
      ensures ExtractsKept(old(deploys.store.extracts), deploys.store.extracts)
      ensures ListingsAged(deploys.listings, old(deploys.store.mem), deploys.store.mem)
      ensures forall a :: a in deploys.store.mem ==> a in old(deploys.store.mem) || fresh(a)
    {
      assert deploys.View(ch) == w.At(ch);
      match since {
        case None => shown := deploys.store.All(ch);
        case Some(t) =>
          shown := deploys.store.Since(ch, t);
          KeptListingsFit(deploys.listings, deploys.store.m, old(deploys.store.mem), deploys.store.mem);
      }
    }

    method ServeVisit(v: Visit, ghost w: World)
      requires Valid() && Holds(w)
      modifies this, deploys`listings, deploys.store, deploys.store.mem.Keys
      ensures Valid() && Holds(Visited(w, v))
      ensures old(deploys.listings) <= deploys.listings
      ensures ExtractsKept(old(deploys.store.extracts), deploys.store.extracts)
      ensures ListingsAged(old(deploys.listings), old(deploys.store.mem), deploys.store.mem)
      ensures forall a :: a in deploys.store.mem ==> a in old(deploys.store.mem) || fresh(a)
    {
      match v {
        case Command(r) => var _ := ServeHTTP(r, w);
        case Look(ch, since) => var _ := ShowHistory(ch, since, w);
      }
    }

    /** Serves a run of visits: the heap ends up holding the world the commands among them lead to. */
    method ServeEach(visits: seq<Visit>, ghost w: World)
      requires Valid() && Holds(w)
      modifies this, deploys`listings, deploys.store, deploys.store.mem.Keys
      ensures Valid() && Holds(Run(w, Requests(visits)))
      ensures old(deploys.listings) <= deploys.listings
      ensures ExtractsKept(old(deploys.store.extracts), deploys.store.extracts)
      ensures ListingsAged(old(deploys.listings), old(deploys.store.mem), deploys.store.mem)
    {
      for i := 0 to |visits|
        invariant Valid() && Holds(Run(w, Requests(visits[..i])))
        invariant old(deploys.listings) <= deploys.listings
        invariant ExtractsKept(old(deploys.store.extracts), deploys.store.extracts)
        invariant ListingsAged(old(deploys.listings), old(deploys.store.mem), deploys.store.mem)
        invariant forall a :: a in deploys.store.mem ==> a in old(deploys.store.mem) || fresh(a)
      {
        ghost var mem := deploys.store.mem;
        NextVisit(w, visits, i);
        ServeVisit(visits[i], Run(w, Requests(visits[..i])));
        ListingsAgedTransitive(old(deploys.listings), old(deploys.store.mem), mem, deploys.store.mem);
      }
      assert visits[..|visits|] == visits;
    }

    /**
     * Serves a run of commands and of looks at histories. Every listing handed out before shows the same deploys
     * after the run, of which at most some have been started; every extract of a history shows exactly what it showed.
     */
    method ServeAll(visits: seq<Visit>, ghost w: World)
      requires Valid() && Holds(w)
      modifies this, deploys`listings, deploys.store, deploys.store.mem.Keys
      ensures Valid() && Holds(Run(w, Requests(visits)))
      ensures forall l :: l in old(deploys.listings) ==> l.Valid() && AgedSeq(old(l.Contents()), l.Contents())
      ensures forall e :: e in old(deploys.store.extracts) ==> e.Valid() && e.Contents() == old(e.Contents())
    {
      HandedOut();
      ghost var listings := deploys.listings;
      ghost var before := map l | l in listings :: l.Contents();
      ServeEach(visits, w);
      HandedOut();
      forall l | l in listings
        ensures AgedSeq(before[l], l.Contents())
      {
        assert before[l] == Show(l, old(deploys.store.mem));
      }
    }
  }

  function Visited(w: World, v: Visit): World {
    match v
    case Command(r) => Serve(w, r).0
    case Look(_, _) => w
  }

  /** The world after one more visit. */
  lemma NextVisit(w: World, visits: seq<Visit>, i: nat)
    requires i < |visits|
    ensures Run(w, Requests(visits[..i + 1])) == Visited(Run(w, Requests(visits[..i])), visits[i])
  {
    var run := Requests(visits[..i]);
    assert visits[..i + 1][..i] == visits[..i];
    if visits[i].Command? {
      assert (run + [visits[i].r])[..|run|] == run;
    } else {
      assert run + [] == run;
    }
  }
}
