/** deploy/channel_deploys.go over the in-memory store, proved against the protocol on values. */
module ChannelDeploysOnHeap {
  import opened Text
  import opened Clock
  import opened GoSlices
  import opened Deploys
  import opened InMemory
  import P = ChannelProtocol

  /** The listings are older windows on arrays of queues. */
  ghost predicate ListingsFit(listings: set<Items>, m: map<string, Items>, mem: Memory) {
    forall l :: l in listings ==>
      && l.arr in mem && mem[l.arr].0.QueueOwner? && OwnedBy(l, mem[l.arr].0, mem)
      && Behind(l, m, mem[l.arr].0.key)
  }

  /** From mem to mem' the listings have at most aged. */
  ghost predicate ListingsAged(listings: set<Items>, mem: Memory, mem': Memory) {
    forall l :: l in listings ==> AgedSeq(Show(l, mem), Show(l, mem'))
  }

  /** Storing a queue ages the listings at most, if it carries on and its entries so far have at most aged. */
  lemma PutQueueAgesListings(listings: set<Items>, m: map<string, Items>, mem: Memory, key: string, s: Items, data: seq<Deploy>)
    requires ListingsFit(listings, m, mem)
    requires s.Valid() && |data| == s.arr.Length && CarriesOn(m, key, s, mem)
    requires s.arr in mem ==> mem[s.arr].0 == QueueOwner(key) && |mem[s.arr].1| == |data|
    requires s.arr in mem ==> forall i :: 0 <= i < m[key].End() ==> Aged(mem[s.arr].1[i], data[i])
    ensures var mem' := mem[s.arr := (QueueOwner(key), data)];
      ListingsFit(listings, m[key := s], mem') && ListingsAged(listings, mem, mem')
  {
  }

  /** The queue arrays known before are as they were. */
  ghost predicate QueueArraysKept(mem: Memory, mem': Memory) {
    forall a :: a in mem && mem[a].0.QueueOwner? ==> a in mem' && mem'[a] == mem[a]
  }

  lemma KeptListingsFit(listings: set<Items>, m: map<string, Items>, mem: Memory, mem': Memory)
    requires ListingsFit(listings, m, mem) && QueueArraysKept(mem, mem')
    ensures ListingsFit(listings, m, mem') && ListingsAged(listings, mem, mem')
  {
  }

  lemma ListingsAgedTransitive(listings: set<Items>, a: Memory, b: Memory, c: Memory)
    requires ListingsAged(listings, a, b) && ListingsAged(listings, b, c)
    ensures ListingsAged(listings, a, c)
  {
    forall l | l in listings
      ensures AgedSeq(Show(l, a), Show(l, c))
    {
      AgedSeqTransitive(Show(l, a), Show(l, b), Show(l, c));
    }
  }

  class ChannelDeploys {
    const store: InMemoryStore
    /** The listings All has handed out, which share the arrays of the queues. */
    ghost var listings: set<Items>

    ghost predicate Valid()
      reads this, store, store.mem.Keys
    {
      store.Valid() && ListingsFit(listings, store.m, store.mem)
    }

    /** The channel as the protocol sees it. */
    ghost function View(ch: string): P.Channel
      reads store
    {
      P.Channel(store.QueueOf(ch), store.HistoryOf(ch))
    }

    constructor (store: InMemoryStore)
      requires store.Valid()
      ensures Valid() && this.store == store && listings == {}
    {
      this.store := store;
      listings := {};
    }

    /** The working copy of a queue every operation begins with. */
    method Load(ch: string) returns (queue: Queue)
      requires Valid()
      modifies store`m, store`mem
      ensures Valid() && fresh(queue) && queue.Valid() && queue.Contents() == View(ch).queue
      ensures ch in store.m && store.m[ch] == queue.items
      ensures forall k :: View(k) == old(View(k))
      ensures ListingsAged(listings, old(store.mem), store.mem)
      ensures forall a :: a in store.mem ==> a in old(store.mem) || fresh(a)
    {
      queue := store.GetQueue(ch);
      KeptListingsFit(listings, old(store.m), old(store.mem), store.mem);
    }

    method All(ch: string) returns (deploys: Items)
      requires Valid()
      modifies this`listings, store`m, store`mem
      ensures Valid() && listings == old(listings) + {deploys}
      ensures deploys.Valid() && deploys.Contents() == View(ch).queue
      ensures forall k :: View(k) == old(View(k))
      ensures ListingsAged(old(listings), old(store.mem), store.mem)
      ensures forall a :: a in store.mem ==> a in old(store.mem) || fresh(a)
    {
      var queue := Load(ch);
      deploys := queue.items;
      listings := listings + {deploys};
    }

    method Current(ch: string) returns (d: Deploy, ok: bool)
      requires Valid()
      modifies store`m, store`mem
      ensures Valid()
      ensures ok == (View(ch).queue != []) && (ok ==> d == View(ch).queue[0])
      ensures forall k :: View(k) == old(View(k))
      ensures ListingsAged(listings, old(store.mem), store.mem)
      ensures forall a :: a in store.mem ==> a in old(store.mem) || fresh(a)
    {
      var queue := Load(ch);
      d, ok := queue.Current();
    }

    /** Adds d to the working copy and stores it: appending in place stays clear of every listing. */
    method Enqueue(ch: string, queue: Queue, d: Deploy)
      requires Valid() && ch in store.m && store.m[ch] == queue.items
      modifies queue, store`m, store`mem, queue.items.arr
      ensures Valid()
      ensures View(ch) == old(View(ch)).(queue := old(View(ch)).queue + [d])
      ensures forall k :: k != ch ==> View(k) == old(View(k))
      ensures ListingsAged(listings, old(store.mem), store.mem)
      ensures forall a :: a in store.mem ==> a in old(store.mem) || fresh(a)
    {
      queue.Add(d);
      PutQueueAgesListings(listings, store.m, store.mem, ch, queue.items, queue.items.arr[..]);
      store.SetQueue(ch, queue);
    }

    method Start(ch: string, d: Deploy, now: Time) returns (r: P.StartResult)
      requires Valid()
      modifies store`m, store`mem, store.mem.Keys
      ensures Valid()
      ensures (View(ch), r) == P.Start(old(View(ch)), d, now)
      ensures forall k :: k != ch ==> View(k) == old(View(k))
      ensures ListingsAged(listings, old(store.mem), store.mem)
      ensures forall a :: a in store.mem ==> a in old(store.mem) || fresh(a)
    {
      var queue := Load(ch);
      ghost var mem := store.mem;
      var current, deployInProgress := queue.Current();
      var present := queue.IsUserInQueue(d.user.id);
      if present {
        return P.AlreadyInQueue(d);
      }
      if deployInProgress {
        Enqueue(ch, queue, d);
        r := P.InProgress(current);
      } else {
        var started := d.Start(now);
        Enqueue(ch, queue, started);
        r := P.Started(started);
      }
      ListingsAgedTransitive(listings, old(store.mem), mem, store.mem);
    }

    /** Adds the completed head to the history, which shares no array with any queue. */
    method Record(ch: string, d: Deploy)
      requires Valid()
      modifies store`h, store`mem, store.mem.Keys
      ensures Valid()
      ensures View(ch) == old(View(ch)).(history := old(View(ch)).history + [d])
      ensures forall k :: k != ch ==> View(k) == old(View(k))
      ensures ListingsAged(listings, old(store.mem), store.mem)
      ensures forall a :: a in store.mem ==> a in old(store.mem) || fresh(a)
    {
      store.AddToHistory(ch, d);
      KeptListingsFit(listings, store.m, old(store.mem), store.mem);
    }

    /** queue is a working copy of a non-empty queue whose head has been popped. */
    ghost predicate Popped(ch: string, queue: Queue)
      reads store`m, queue
    {
      && ch in store.m && store.m[ch].Valid() && store.m[ch].len > 0
      && queue.items == store.m[ch].Window(1, store.m[ch].len)
    }

    /** Starts the deploy at the head of a working copy, in the array it shares with the listings. */
    method StartHead(queue: Queue, startAt: Time)
      requires queue.Valid()
      modifies queue.items.arr
      ensures queue.Contents() == P.Advanced(old(queue.Contents()), startAt)
      ensures forall i :: 0 <= i < queue.items.arr.Length ==> Aged(old(queue.items.arr[i]), queue.items.arr[i])
    {
      var next, queueIsNotEmpty := queue.Current();
      if queueIsNotEmpty {
        queue.ReplaceHeadWith(next.Start(startAt));
      }
    }

    /** Stores a working copy whose head has been popped, once the next deploy in it has been started. */
    method Advance(ch: string, queue: Queue, startAt: Time)
      requires Valid() && Popped(ch, queue)
      modifies store`m, store`mem, queue.items.arr
      ensures Valid()
      ensures View(ch) == old(View(ch)).(queue := P.Advanced(old(View(ch)).queue[1..], startAt))
      ensures forall k :: k != ch ==> View(k) == old(View(k))
      ensures ListingsAged(listings, old(store.mem), store.mem)
      ensures store.mem.Keys == old(store.mem.Keys)
    {
      assert queue.Contents() == View(ch).queue[1..];
      StartHead(queue, startAt);
      PutQueueAgesListings(listings, store.m, store.mem, ch, queue.items, queue.items.arr[..]);
      store.SetQueue(ch, queue);
    }

    /** The first half of Finish and of Abort: a working copy without its head, and that head. */
    method PopHead(ch: string) returns (queue: Queue, current: Deploy, deployInProgress: bool)
      requires Valid()
      modifies store`m, store`mem
      ensures Valid() && deployInProgress == (View(ch).queue != [])
      ensures deployInProgress ==> current == View(ch).queue[0] && Popped(ch, queue)
      ensures forall k :: View(k) == old(View(k))
      ensures ListingsAged(listings, old(store.mem), store.mem)
      ensures forall a :: a in store.mem ==> a in old(store.mem) || fresh(a)
    {
      queue := Load(ch);
      ghost var loaded := queue.items;
      assert loaded.Valid() && (loaded.len > 0 <==> View(ch).queue != []);
      current, deployInProgress := queue.Pop();
      assert store.m[ch] == loaded;
    }

    method Finish(ch: string, finishAt: Time, startAt: Time) returns (d: Deploy, ok: bool)
      requires Valid()
      modifies store`m, store`h, store`mem, store.mem.Keys
      ensures Valid()
      ensures (View(ch), if ok then Some(d) else None) == P.Finish(old(View(ch)), finishAt, startAt)
      ensures forall k :: k != ch ==> View(k) == old(View(k))
      ensures ListingsAged(listings, old(store.mem), store.mem)
      ensures forall a :: a in store.mem ==> a in old(store.mem) || fresh(a)
    {
      var queue, current, deployInProgress := PopHead(ch);
      if !deployInProgress {
        return current, false;
      }
      d, ok := current.Finish(finishAt), true;
      ghost var mem := store.mem;
      Settle(ch, queue, d, startAt);
      ListingsAgedTransitive(listings, old(store.mem), mem, store.mem);
    }

    method Abort(ch: string, reason: string, finishAt: Time, startAt: Time) returns (d: Deploy, ok: bool)
      requires Valid()
      modifies store`m, store`h, store`mem, store.mem.Keys
      ensures Valid()
      ensures (View(ch), if ok then Some(d) else None) == P.Abort(old(View(ch)), reason, finishAt, startAt)
      ensures forall k :: k != ch ==> View(k) == old(View(k))
      ensures ListingsAged(listings, old(store.mem), store.mem)
      ensures forall a :: a in store.mem ==> a in old(store.mem) || fresh(a)
    {
      var queue, current, deployInProgress := PopHead(ch);
      if !deployInProgress {
        return current, false;
      }
      d, ok := current.Abort(reason, finishAt), true;
      ghost var mem := store.mem;
      Settle(ch, queue, d, startAt);
      ListingsAgedTransitive(listings, old(store.mem), mem, store.mem);
    }

    /** The second half of Finish and of Abort: the completed head goes to the history and the next deploy starts. */
    method Settle(ch: string, queue: Queue, d: Deploy, startAt: Time)
      requires Valid() && Popped(ch, queue) && View(ch).queue != []
      modifies store`m, store`h, store`mem, store.mem.Keys
      ensures Valid()
      ensures View(ch) == P.Settled(old(View(ch)), d, startAt)
      ensures forall k :: k != ch ==> View(k) == old(View(k))
      ensures ListingsAged(listings, old(store.mem), store.mem)
      ensures forall a :: a in store.mem ==> a in old(store.mem) || fresh(a)
    {
      Record(ch, d);
      ghost var mem := store.mem;
      Advance(ch, queue, startAt);
      ListingsAgedTransitive(listings, old(store.mem), mem, store.mem);
    }

    method LeaveQueue(ch: string, user: User) returns (left: bool)
      requires Valid()
      modifies store`m, store`mem
      ensures Valid()
      ensures (View(ch), left) == P.Leave(old(View(ch)), user.id)
      ensures forall k :: k != ch ==> View(k) == old(View(k))
      ensures ListingsAged(listings, old(store.mem), store.mem)
      ensures forall a :: a in store.mem ==> a in old(store.mem) || fresh(a)
    {
      var queue;
      queue, left := Filter(ch, user);
      if left {
        ghost var mem := store.mem;
        Replace(ch, queue);
        ListingsAgedTransitive(listings, old(store.mem), mem, store.mem);
      }
    }

    /** A working copy without the deploys of the user, on an array of its own if there were any. */
    method Filter(ch: string, user: User) returns (queue: Queue, left: bool)
      requires Valid()
      modifies store`m, store`mem
      ensures Valid() && queue.Valid() && left == P.UserInQueue(View(ch).queue, user.id)
      ensures left ==> queue.items.arr !in store.mem && fresh(queue.items.arr) && queue.Contents() == P.WithoutUser(View(ch).queue, user.id)
      ensures forall k :: View(k) == old(View(k))
      ensures ListingsAged(listings, old(store.mem), store.mem)
      ensures forall a :: a in store.mem ==> a in old(store.mem) || fresh(a)
    {
      queue := Load(ch);
      left := queue.RemoveUser(user.id);
    }

    /** Stores a queue built on an array of its own. */
    method Replace(ch: string, queue: Queue)
      requires Valid() && queue.Valid() && queue.items.arr !in store.mem
      modifies store`m, store`mem
      ensures Valid()
      ensures View(ch) == old(View(ch)).(queue := queue.Contents())
      ensures forall k :: k != ch ==> View(k) == old(View(k))
      ensures ListingsAged(listings, old(store.mem), store.mem)
      ensures store.mem.Keys == old(store.mem.Keys) + {queue.items.arr}
    {
      PutQueueAgesListings(listings, store.m, store.mem, ch, queue.items, queue.items.arr[..]);
      store.SetQueue(ch, queue);
    }
  }
}
