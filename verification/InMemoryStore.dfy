/** deploy/deploy.go and deploy/in_memory_store.go on the heap: queues and histories as windows on shared arrays. */
module InMemory {
  import opened GoSlices
  import opened Clock
  import opened Deploys
  import opened ChannelProtocol
  import opened HistoryQueries

  type Items = Slice<Deploy>

  /** A queue as handed out by a store: a copy of the slice header, sharing the array behind it. */
  class Queue {
    var items: Items

    constructor (items: Items)
      ensures this.items == items
    {
      this.items := items;
    }

    ghost predicate Valid()
      reads this
    {
      items.Valid()
    }

    ghost function Contents(): (s: seq<Deploy>)
      requires Valid()
      reads this, items.arr
      ensures |s| == items.len
    {
      items.Contents()
    }

    method Add(d: Deploy)
      requires Valid()
      modifies this, items.arr
      ensures Valid() && Contents() == old(Contents()) + [d]
      ensures if old(items.len < items.cap)
              then items == old(items).(len := old(items).len + 1) && items.arr[..] == old(items.arr[..])[old(items).End() := d]
              else fresh(items.arr) && old(items).arr[..] == old(items.arr[..])
    {
      items := Append(items, d);
    }

    method Current() returns (d: Deploy, ok: bool)
      requires Valid()
      ensures ok == (Contents() != [])
      ensures d == if ok then Contents()[0] else Deploy(User("", ""), "", 0, 0, false, "", [], [])
    {
      if items.len > 0 {
        d, ok := items.arr[items.off], true;
      } else {
        d, ok := NO_DEPLOY, false;
      }
    }

    method Pop() returns (d: Deploy, ok: bool)
      requires Valid()
      modifies this
      ensures Valid() && ok == (old(Contents()) != [])
      ensures items == if ok then old(items).Window(1, old(items).len) else old(items)
      ensures if ok then d == old(Contents())[0] && Contents() == old(Contents())[1..]
              else d == Deploy(User("", ""), "", 0, 0, false, "", [], [])
    {
      if items.len > 0 {
        ok := true;
        d := items.arr[items.off];
        items := items.Window(1, items.len);
      } else {
        d, ok := NO_DEPLOY, false;
      }
    }

    method IsUserInQueue(id: string) returns (found: bool)
      requires Valid()
      ensures found == UserInQueue(Contents(), id)
    {
      for i := 0 to items.len
        invariant !UserInQueue(Contents()[..i], id)
      {
        if items.arr[items.off + i].user.id == id {
          assert Contents()[i].user.id == id;
          return true;
        }
      }
      assert Contents()[..items.len] == Contents();
      return false;
    }

    method RemoveUser(id: string) returns (removed: bool)
      requires Valid()
      modifies this
      ensures Valid() && removed == UserInQueue(old(Contents()), id)
      ensures if removed then fresh(items.arr) && Contents() == WithoutUser(old(Contents()), id)
              else items == old(items)
    {
      removed := IsUserInQueue(id);
      if !removed {
        return;
      }
      ghost var before := Contents();
      var filtered: Items := MakeEmpty();
      for i := 0 to items.len
        invariant filtered.Valid() && fresh(filtered.arr)
        invariant items == old(items) && Contents() == before && filtered.arr != items.arr
        invariant filtered.Contents() == WithoutUser(before[..i], id)
      {
        var d := items.arr[items.off + i];
        assert d == before[i];
        WithoutUserAppend(before[..i], d, id);
        assert before[..i + 1] == before[..i] + [d];
        if d.user.id != id {
          filtered := Append(filtered, d);
        }
      }
      assert before[..items.len] == before;
      items := filtered;
    }

    method ReplaceHeadWith(d: Deploy)
      requires Valid() && Contents() != []
      modifies items.arr
      ensures Contents() == old(Contents())[0 := d]
      ensures items.arr[..] == old(items.arr[..])[items.off := d]
    {
      items.arr[items.off] := d;
    }
  }

  lemma {:induction false} WithoutUserAppend(queue: seq<Deploy>, d: Deploy, id: string)
    ensures WithoutUser(queue + [d], id) == WithoutUser(queue, id) + (if d.user.id != id then [d] else [])
  {
    if queue == [] {
      assert queue + [d] == [d];
    } else {
      assert (queue + [d])[1..] == queue[1..] + [d];
      WithoutUserAppend(queue[1..], d, id);
    }
  }

  /** Whose array it is: the queue of a channel or the history of one. Arrays never change owner. */
  datatype Owner = QueueOwner(key: string) | HistoryOwner(key: string)

  /** The arrays behind the queues and histories, now or earlier: whose they are and what is in them. */
  type Memory = map<array<Deploy>, (Owner, seq<Deploy>)>

  /** What the window s shows. */
  ghost function Show(s: Items, mem: Memory): seq<Deploy> {
    if s.arr in mem && s.End() <= |mem[s.arr].1| then mem[s.arr].1[s.off..s.End()] else []
  }

  ghost function ShowAt(m: map<string, Items>, key: string, mem: Memory): seq<Deploy> {
    if key in m then Show(m[key], mem) else []
  }

  /** s is a window on an array of the owner. */
  ghost predicate OwnedBy(s: Items, owner: Owner, mem: Memory) {
    s.Valid() && s.arr in mem && mem[s.arr].0 == owner && |mem[s.arr].1| == s.arr.Length
  }

  /** An older window on the array of a current one ends no later, so that appending never reaches into it. */
  ghost predicate Behind(older: Items, m: map<string, Items>, key: string) {
    key in m && m[key].arr == older.arr ==> older.End() <= m[key].End()
  }

  /** Every channel has arrays of its own, and those of its queue are not those of its history. */
  ghost predicate Apart(m: map<string, Items>, h: map<string, Items>, mem: Memory) {
    && (forall k :: k in m ==> OwnedBy(m[k], QueueOwner(k), mem))
    && (forall k :: k in h ==> OwnedBy(h[k], HistoryOwner(k), mem))
  }

  /** The extracts still show what they showed when they were handed out, and always will. */
  ghost predicate ExtractsShow(extracts: map<Items, seq<Deploy>>, h: map<string, Items>, mem: Memory) {
    forall e :: e in extracts ==>
      && e.arr in mem && mem[e.arr].0.HistoryOwner? && OwnedBy(e, mem[e.arr].0, mem)
      && Behind(e, h, mem[e.arr].0.key)
      && Show(e, mem) == extracts[e]
  }

  /** The extracts on record stay on record, for the same deploys. */
  ghost predicate ExtractsKept(extracts: map<Items, seq<Deploy>>, extracts': map<Items, seq<Deploy>>) {
    forall e :: e in extracts ==> e in extracts' && extracts'[e] == extracts[e]
  }

  /** Distinct channels never share an array, nor do a queue and a history. */
  lemma ChannelsShareNothing(m: map<string, Items>, h: map<string, Items>, mem: Memory, j: string, k: string)
    requires Apart(m, h, mem)
    ensures j in m && k in m && m[j].arr == m[k].arr ==> j == k
    ensures j in h && k in h && h[j].arr == h[k].arr ==> j == k
    ensures j in m && k in h ==> m[j].arr != h[k].arr
  {
  }

  /** A new current window may be stored if it is on a new array, or carries on where the stored one ends. */
  ghost predicate CarriesOn(m: map<string, Items>, key: string, s: Items, mem: Memory) {
    s.arr in mem ==> key in m && m[key].arr == s.arr && m[key].End() <= s.End()
  }

  /** A cell that one owner may rewrite for the window s: a new one, or the one behind its current window. */
  ghost predicate MayStore(m: map<string, Items>, key: string, s: Items, data: seq<Deploy>, mem: Memory) {
    s.Valid() && |data| == s.arr.Length && CarriesOn(m, key, s, mem)
  }

  /** Storing a queue, whatever was written to its array, changes no other queue, no history and no extract. */
  lemma PutQueue(m: map<string, Items>, h: map<string, Items>, mem: Memory, extracts: map<Items, seq<Deploy>>,
                 key: string, s: Items, data: seq<Deploy>)
    requires Apart(m, h, mem) && ExtractsShow(extracts, h, mem)
    requires MayStore(m, key, s, data, mem)
    ensures var m', mem' := m[key := s], mem[s.arr := (QueueOwner(key), data)];
      && Apart(m', h, mem') && ExtractsShow(extracts, h, mem')
      && ShowAt(m', key, mem') == data[s.off..s.End()]
      && (forall k :: k != key ==> ShowAt(m', k, mem') == ShowAt(m, k, mem))
      && forall k :: ShowAt(h, k, mem') == ShowAt(h, k, mem)
  {
  }

  lemma PutHistoryApart(m: map<string, Items>, h: map<string, Items>, mem: Memory, key: string, s: Items, data: seq<Deploy>)
    requires Apart(m, h, mem) && MayStore(h, key, s, data, mem)
    ensures var h', mem' := h[key := s], mem[s.arr := (HistoryOwner(key), data)];
      && Apart(m, h', mem')
      && ShowAt(h', key, mem') == data[s.off..s.End()]
      && (forall k :: k != key ==> ShowAt(h', k, mem') == ShowAt(h, k, mem))
      && forall k :: ShowAt(m, k, mem') == ShowAt(m, k, mem)
  {
  }

  lemma PrefixShows(older: seq<Deploy>, newer: seq<Deploy>, n: nat, lo: nat, hi: nat)
    requires lo <= hi <= n <= |older| && n <= |newer| && older[..n] == newer[..n]
    ensures older[lo..hi] == newer[lo..hi]
  {
    forall i | lo <= i < hi
      ensures older[i] == newer[i]
    {
      assert older[..n][i] == newer[..n][i];
    }
  }

  lemma PutHistoryKeepsExtract(e: Items, h: map<string, Items>, mem: Memory, extracts: map<Items, seq<Deploy>>,
                               key: string, s: Items, data: seq<Deploy>)
    requires ExtractsShow(extracts, h, mem) && MayStore(h, key, s, data, mem) && e in extracts
    requires s.arr in mem ==> mem[s.arr].0 == HistoryOwner(key) && h[key].End() <= |data| == |mem[s.arr].1|
    requires s.arr in mem ==> data[..h[key].End()] == mem[s.arr].1[..h[key].End()]
    ensures ExtractsShow(map[e := extracts[e]], h[key := s], mem[s.arr := (HistoryOwner(key), data)])
  {
    if e.arr == s.arr {
      PrefixShows(mem[s.arr].1, data, h[key].End(), e.off, e.End());
    }
  }

  /** Storing a history to whose array one entry was appended changes no other history, no queue and no extract. */
  lemma PutHistory(m: map<string, Items>, h: map<string, Items>, mem: Memory, extracts: map<Items, seq<Deploy>>,
                   key: string, s: Items, data: seq<Deploy>)
    requires Apart(m, h, mem) && ExtractsShow(extracts, h, mem) && MayStore(h, key, s, data, mem)
    requires s.arr in mem ==> data[..h[key].End()] == mem[s.arr].1[..h[key].End()]
    ensures var h', mem' := h[key := s], mem[s.arr := (HistoryOwner(key), data)];
      && Apart(m, h', mem') && ExtractsShow(extracts, h', mem')
      && ShowAt(h', key, mem') == data[s.off..s.End()]
      && (forall k :: k != key ==> ShowAt(h', k, mem') == ShowAt(h, k, mem))
      && forall k :: ShowAt(m, k, mem') == ShowAt(m, k, mem)
  {
    var h', mem' := h[key := s], mem[s.arr := (HistoryOwner(key), data)];
    PutHistoryApart(m, h, mem, key, s, data);
    forall e | e in extracts
      ensures ExtractsShow(map[e := extracts[e]], h', mem')
    {
      PutHistoryKeepsExtract(e, h, mem, extracts, key, s, data);
    }
    assert forall e :: e in extracts ==> e in map[e := extracts[e]];
  }

  /** A window on the history of a channel, or an empty one on a new array, may be handed out as an extract. */
  lemma PutExtract(m: map<string, Items>, h: map<string, Items>, mem: Memory, extracts: map<Items, seq<Deploy>>,
                   key: string, s: Items, data: seq<Deploy>)
    requires Apart(m, h, mem) && ExtractsShow(extracts, h, mem)
    requires s.Valid() && |data| == s.arr.Length
    requires s.arr in mem ==> key in h && h[key].arr == s.arr && s.End() <= h[key].End() && mem[s.arr].1 == data
    ensures var mem' := mem[s.arr := (HistoryOwner(key), data)];
      && Apart(m, h, mem') && ExtractsShow(extracts[s := data[s.off..s.End()]], h, mem')
      && forall k :: ShowAt(m, k, mem') == ShowAt(m, k, mem) && ShowAt(h, k, mem') == ShowAt(h, k, mem)
  {
    if s.arr in mem {
      assert mem[s.arr := (HistoryOwner(key), data)] == mem;
    }
  }

  class InMemoryStore {
    var m: map<string, Items>
    var h: map<string, Items>
    ghost var mem: Memory
    /** The results of Since and what they showed when handed out. They may share the arrays of the histories. */
    ghost var extracts: map<Items, seq<Deploy>>

    /** mem is a true picture of the arrays, except perhaps of those in `but`. */
    ghost predicate Mirrors(but: set<array<Deploy>>)
      reads this, mem.Keys
    {
      forall a :: a in mem && a !in but ==> mem[a].1 == a[..]
    }

    ghost predicate Valid()
      reads this, mem.Keys
    {
      Mirrors({}) && Apart(m, h, mem) && ExtractsShow(extracts, h, mem)
    }

    /** A window on a mirrored array shows what the mirror says. */
    lemma Mirrored(s: Items)
      requires Mirrors({}) && s.Valid() && s.arr in mem
      ensures s.Contents() == Show(s, mem)
    {
    }

    ghost function QueueOf(key: string): seq<Deploy>
      reads this
    {
      ShowAt(m, key, mem)
    }

    ghost function HistoryOf(key: string): seq<Deploy>
      reads this
    {
      ShowAt(h, key, mem)
    }

    constructor ()
      ensures Valid() && m == map[] && h == map[] && mem == map[] && extracts == map[]
    {
      m, h, mem, extracts := map[], map[], map[], map[];
    }

    method GetQueue(key: string) returns (q: Queue)
      requires Valid()
      modifies this`m, this`mem
      ensures Valid() && fresh(q)
      ensures q.Valid() && q.Contents() == QueueOf(key) == old(QueueOf(key))
      ensures key in m && m[key] == q.items
      ensures if key in old(m) then m == old(m) && mem == old(mem)
              else m == old(m)[key := q.items] && mem == old(mem)[q.items.arr := (QueueOwner(key), [])] && fresh(q.items.arr)
      ensures forall k :: QueueOf(k) == old(QueueOf(k)) && HistoryOf(k) == old(HistoryOf(k))
    {
      if key !in m {
        var empty: Items := MakeEmpty();
        PutQueue(m, h, mem, extracts, key, empty, empty.arr[..]);
        m, mem := m[key := empty], mem[empty.arr := (QueueOwner(key), [])];
      }
      q := new Queue(m[key]);
    }

    /** Nothing else is disturbed if the queue put back is on a new array or carries on where the stored one ends. */
    method SetQueue(key: string, q: Queue)
      requires Mirrors({q.items.arr}) && q.Valid()
      modifies this`m, this`mem
      ensures m == old(m)[key := q.items] && mem == old(mem)[q.items.arr := (QueueOwner(key), q.items.arr[..])]
      ensures QueueOf(key) == q.Contents()
      ensures old(MayPutBack(key, q)) ==> Valid()
      ensures old(MayPutBack(key, q)) ==> forall k :: k != key ==> QueueOf(k) == old(QueueOf(k))
      ensures old(MayPutBack(key, q)) ==> forall k :: HistoryOf(k) == old(HistoryOf(k))
    {
      if MayPutBack(key, q) {
        PutQueue(m, h, mem, extracts, key, q.items, q.items.arr[..]);
      }
      m, mem := m[key := q.items], mem[q.items.arr := (QueueOwner(key), q.items.arr[..])];
    }

    ghost predicate MayPutBack(key: string, q: Queue)
      reads this, q
    {
      Apart(m, h, mem) && ExtractsShow(extracts, h, mem) && CarriesOn(m, key, q.items, mem)
    }

    /** s.h[key], or an empty slice when there is none. */
    method HistorySlice(key: string) returns (s: Items)
      requires Valid()
      ensures s.Valid() && s.Contents() == HistoryOf(key)
      ensures if key in h then s == h[key] else fresh(s.arr) && s.len == 0
    {
      if key in h {
        s := h[key];
      } else {
        s := MakeEmpty();
      }
    }

    method AddToHistory(key: string, d: Deploy)
      requires Valid()
      modifies this`h, this`mem, if key in h then {h[key].arr} else {}
      ensures Valid()
      ensures HistoryOf(key) == old(HistoryOf(key)) + [d]
      ensures forall k :: k != key ==> HistoryOf(k) == old(HistoryOf(k))
      ensures forall k :: QueueOf(k) == old(QueueOf(k))
      ensures key in h && mem == old(mem)[h[key].arr := mem[h[key].arr]]
      ensures if h[key].arr in old(mem) then old(mem)[h[key].arr].0 == HistoryOwner(key) else fresh(h[key].arr)
    {
      var s := HistorySlice(key);
      var r := Append(s, d);
      SetHistory(key, r);
    }

    /** Stores a history to whose array an entry was appended. */
    method SetHistory(key: string, s: Items)
      requires Mirrors({s.arr}) && Apart(m, h, mem) && ExtractsShow(extracts, h, mem)
      requires s.Valid() && CarriesOn(h, key, s, mem)
      requires s.arr in mem ==> s.arr[..h[key].End()] == mem[s.arr].1[..h[key].End()]
      modifies this`h, this`mem
      ensures Valid()
      ensures h == old(h)[key := s] && mem == old(mem)[s.arr := (HistoryOwner(key), s.arr[..])]
      ensures HistoryOf(key) == s.Contents()
      ensures forall k :: k != key ==> HistoryOf(k) == old(HistoryOf(k))
      ensures forall k :: QueueOf(k) == old(QueueOf(k))
    {
      PutHistory(m, h, mem, extracts, key, s, s.arr[..]);
      h, mem := h[key := s], mem[s.arr := (HistoryOwner(key), s.arr[..])];
    }

    /** The whole history, in a copy of its own. */
    method All(key: string) returns (deploys: Items)
      requires Valid()
      ensures deploys.Valid() && fresh(deploys.arr) && deploys.Contents() == HistoryOf(key)
    {
      var s := HistorySlice(key);
      var arr := new Deploy[s.len](_ => NO_DEPLOY);
      forall i | 0 <= i < s.len {
        arr[i] := s.arr[s.off + i];
      }
      deploys := Slice(arr, 0, s.len, s.len);
    }

    /**
     * The suffix of the history found by scanning it backwards. It shares the array of the history and is
     * recorded among the extracts: Valid says that it shows the same deploys ever after.
     */
    method Since(key: string, startTime: Time) returns (deploys: Items)
      requires Valid()
      modifies this`extracts, this`mem
      ensures Valid() && deploys.Valid()
      ensures deploys.Contents() == SuffixSince(HistoryOf(key), startTime)
      ensures deploys in extracts && extracts == old(extracts)[deploys := deploys.Contents()]
      ensures ExtractsKept(old(extracts), extracts)
      ensures forall a :: a in old(mem) ==> a in mem && mem[a] == old(mem)[a]
      ensures forall a :: a in mem ==> a in old(mem) || fresh(a)
      ensures forall k :: QueueOf(k) == old(QueueOf(k)) && HistoryOf(k) == old(HistoryOf(k))
    {
      var i, history := ScanBack(key, startTime);
      deploys := Cut(history, i);
      HandOut(key, deploys);
    }

    /** Puts an extract on record. */
    ghost method HandOut(key: string, s: Items)
      requires Valid() && s.Valid()
      requires s.arr in mem ==> key in h && h[key].arr == s.arr && s.End() <= h[key].End()
      modifies this`extracts, this`mem
      ensures Valid() && extracts == old(extracts)[s := s.Contents()]
      ensures ExtractsKept(old(extracts), extracts)
      ensures forall a :: a in old(mem) ==> a in mem && mem[a] == old(mem)[a]
      ensures forall a :: a in mem ==> a in old(mem) || a == s.arr
      ensures forall k :: QueueOf(k) == old(QueueOf(k)) && HistoryOf(k) == old(HistoryOf(k))
    {
      var data := s.arr[..];
      KnownExtract(s);
      PutExtract(m, h, mem, extracts, key, s, data);
      mem, extracts := mem[s.arr := (HistoryOwner(key), data)], extracts[s := s.Contents()];
    }

    /** An extract on record still shows what it showed. */
    lemma KnownExtract(s: Items)
      requires Valid()
      ensures s in extracts ==> s.Valid() && s.Contents() == extracts[s]
    {
      if s in extracts {
        Mirrored(s);
      }
    }

    /** history[i:], or an empty slice of its own when nothing is left. */
    method Cut(history: Items, i: nat) returns (deploys: Items)
      requires history.Valid() && i <= history.len
      ensures deploys.Valid() && deploys.Contents() == history.Contents()[i..]
      ensures if i == history.len then fresh(deploys.arr) else deploys == history.Window(i, history.len)
    {
      if i == history.len {
        deploys := MakeEmpty();
      } else {
        deploys := history.Window(i, history.len);
      }
    }

    /** The loop of Since: where to cut the history. */
    method ScanBack(key: string, startTime: Time) returns (i: nat, history: Items)
      requires Valid()
      ensures history.Valid() && history.Contents() == HistoryOf(key)
      ensures if key in h then history == h[key] else history.len == 0
      ensures i == ScanStart(HistoryOf(key), startTime, history.len)
    {
      history := HistorySlice(key);
      ghost var deploys := history.Contents();
      i := history.len;
      while i > 0
        invariant i <= history.len
        invariant ScanStart(deploys, startTime, history.len) == ScanStart(deploys, startTime, i)
      {
        assert history.arr[history.off + i - 1] == deploys[i - 1];
        if history.arr[history.off + i - 1].startedAt < startTime {
          break;
        }
        i := i - 1;
      }
    }
  }
}
