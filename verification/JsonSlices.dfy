/**
 * What encoding/json makes of arrays that are decoded into one and the same variable: the slice in it is cut to length
 * zero and appended to, so that what is decoded later may be written over what was handed out earlier.
 */
module JsonSlices {
  import opened GoSlices

  /** The slice is all of its array, as the decoder leaves it. */
  predicate Whole<T>(s: Slice<T>) {
    s.Valid() && s.off == 0 && s.cap == s.arr.Length
  }

  /** The array has been written over from its beginning, as far as it goes. */
  predicate Overwritten<T(==)>(before: seq<T>, after: seq<T>, refs: seq<T>) {
    |after| == |before| && forall p :: 0 <= p < |before| ==> after[p] == if p < |refs| then refs[p] else before[p]
  }

  /** json.Unmarshal into a slice: null, which is how no elements are stored, sets it to nil. */
  method Unmarshal<T(==, 0)>(cur: Slice<T>, refs: seq<T>) returns (r: Slice<T>)
    requires Whole(cur)
    modifies cur.arr
    ensures Whole(r) && r.Contents() == refs
    ensures fresh(r.arr) || (refs != [] && r.arr == cur.arr)
    ensures Overwritten(old(cur.arr[..]), cur.arr[..], refs)
  {
    if refs == [] {
      r := MakeEmpty();
      return;
    }
    r := Slice(cur.arr, 0, 0, cur.cap);
    for i := 0 to |refs|
      invariant Whole(r) && r.len == i && r.Contents() == refs[..i]
      invariant fresh(r.arr) || r.arr == cur.arr
      invariant r.arr != cur.arr ==> cur.cap <= i
      invariant Overwritten(old(cur.arr[..]), cur.arr[..], refs[..i])
    {
      r := Append(r, refs[i]);
      assert refs[..i + 1] == refs[..i] + [refs[i]];
    }
    assert refs[..|refs|] == refs;
  }

  // ---- one variable, decoded into for one entry after the other ----

  /** The variable before the first entry and after each of them. An array is used for some entries in a row. */
  ghost predicate Fits<T>(slices: seq<Slice<T>>, stored: seq<seq<T>>) {
    && |slices| == |stored| + 1
    && (forall j :: 0 <= j < |slices| ==> Whole(slices[j]))
    && (forall j :: 0 <= j < |stored| ==> slices[j + 1].len == |stored[j]|)
    && (forall a, b, c :: 0 <= a <= b <= c < |slices| && slices[a].arr == slices[c].arr ==> slices[b].arr == slices[a].arr)
    && (forall a, j :: 0 <= a <= j < |stored| && stored[j] == [] ==> slices[a].arr != slices[j + 1].arr)
  }

  /** Decoding entry j writes over cell p of what was handed out for entry i. */
  predicate Writes<T(==)>(slices: seq<Slice<T>>, stored: seq<seq<T>>, j: nat, i: nat, p: nat)
    requires i < j < |stored| < |slices|
  {
    slices[j].arr == slices[i + 1].arr && p < |stored[j]|
  }

  /** The entry that cell p of entry i was decoded from last. */
  function LastWriter<T(==)>(slices: seq<Slice<T>>, stored: seq<seq<T>>, i: nat, p: nat): (j: nat)
    requires i < |stored| < |slices| && p < |stored[i]|
    ensures i <= j < |stored| && p < |stored[j]|
  {
    var n := |stored| - 1;
    if i == n || Writes(slices, stored, n, i, p) then n else LastWriter(slices[..n + 1], stored[..n], i, p)
  }

  /** What the slices handed out show now. */
  ghost predicate Shown<T(!new)>(slices: seq<Slice<T>>, stored: seq<seq<T>>)
    requires Fits(slices, stored)
    reads set s | s in slices :: s.arr
  {
    forall i, p :: 0 <= i < |stored| && 0 <= p < |stored[i]| ==>
      slices[i + 1].Contents()[p] == stored[LastWriter(slices, stored, i, p)][p]
  }

  lemma LastWriterNext<T>(slices: seq<Slice<T>>, stored: seq<seq<T>>, r: Slice<T>, refs: seq<T>, i: nat, p: nat)
    requires |slices| == |stored| + 1 && i <= |stored| && p < |(stored + [refs])[i]|
    ensures LastWriter(slices + [r], stored + [refs], i, p) ==
      if i == |stored| || (slices[|stored|].arr == slices[i + 1].arr && p < |refs|) then |stored|
      else LastWriter(slices, stored, i, p)
  {
    assert (slices + [r])[..|stored| + 1] == slices && (stored + [refs])[..|stored|] == stored;
  }

  lemma FitsNext<T>(slices: seq<Slice<T>>, stored: seq<seq<T>>, r: Slice<T>, refs: seq<T>)
    requires Fits(slices, stored) && Whole(r) && r.len == |refs|
    requires if r.arr == slices[|stored|].arr then refs != [] else forall s :: s in slices ==> s.arr != r.arr
    ensures Fits(slices + [r], stored + [refs])
  {
    var n := |stored|;
    var all := slices + [r];
    forall a, b, c | 0 <= a <= b <= c < |all| && all[a].arr == all[c].arr
      ensures all[b].arr == all[a].arr
    {
      if c == n + 1 && a <= n {
        assert all[a] in slices;
        assert all[a].arr == slices[n].arr;
      }
    }
    forall a, j | 0 <= a <= j < n + 1 && (stored + [refs])[j] == []
      ensures all[a].arr != all[j + 1].arr
    {
      if j == n {
        assert all[a] in slices && slices[n] in slices;
      }
    }
  }

  /** Decodes one more entry into the variable. */
  method DecodeNext<T(==, !new, 0)>(ghost slices: seq<Slice<T>>, ghost stored: seq<seq<T>>, cur: Slice<T>, refs: seq<T>)
    returns (r: Slice<T>)
    requires Fits(slices, stored) && Shown(slices, stored) && cur == slices[|stored|]
    modifies cur.arr
    ensures fresh(r.arr) || r.arr == cur.arr
    ensures Fits(slices + [r], stored + [refs]) && Shown(slices + [r], stored + [refs])
  {
    ghost var n := |stored|;
    r := Unmarshal(cur, refs);
    FitsNext(slices, stored, r, refs);
    forall i, p | 0 <= i < n + 1 && 0 <= p < |(stored + [refs])[i]|
      ensures (slices + [r])[i + 1].Contents()[p] ==
        (stored + [refs])[LastWriter(slices + [r], stored + [refs], i, p)][p]
    {
      LastWriterNext(slices, stored, r, refs, i, p);
      if i < n {
        assert slices[i + 1].Contents()[p] == slices[i + 1].arr[p];
      }
    }
  }

  /** A variable that the arrays of all entries are decoded into. */
  class Variable<T(==, !new, 0)> {
    var cur: Slice<T>
    /** Its values, from the beginning, and what was decoded into it. */
    ghost var slices: seq<Slice<T>>
    ghost var stored: seq<seq<T>>

    /** What has been handed out shows what was written there last. */
    ghost predicate Valid()
      reads this, set s | s in slices :: s.arr
    {
      Fits(slices, stored) && Shown(slices, stored) && cur == slices[|stored|]
    }

    constructor ()
      ensures Valid() && stored == [] && |slices| == 1 && fresh(cur.arr)
    {
      var none: Slice<T> := MakeEmpty();
      cur, slices, stored := none, [none], [];
    }

    method Decode(refs: seq<T>) returns (r: Slice<T>)
      requires Valid()
      modifies this, cur.arr
      ensures Valid() && stored == old(stored) + [refs] && r == cur && slices == old(slices) + [r]
      ensures fresh(cur.arr) || cur.arr == old(cur.arr)
    {
      r := DecodeNext(slices, stored, cur, refs);
      cur, slices, stored := r, slices + [r], stored + [refs];
    }
  }

  // ---- when everything handed out is right ----

  lemma {:induction false} LastWriterIsLast<T>(slices: seq<Slice<T>>, stored: seq<seq<T>>, i: nat, p: nat)
    requires i < |stored| < |slices| && p < |stored[i]|
    ensures var j := LastWriter(slices, stored, i, p);
      && (j == i || Writes(slices, stored, j, i, p))
      && forall m :: j < m < |stored| ==> !Writes(slices, stored, m, i, p)
  {
    var n := |stored| - 1;
    if i < n && !Writes(slices, stored, n, i, p) {
      var before, had := slices[..n + 1], stored[..n];
      LastWriterIsLast(before, had, i, p);
      assert LastWriter(slices, stored, i, p) == LastWriter(before, had, i, p);
      forall m | LastWriter(slices, stored, i, p) < m < n
        ensures !Writes(slices, stored, m, i, p)
      {
        assert !Writes(before, had, m, i, p);
      }
    }
  }

  /** Entries written into the array of an earlier one repeat what they write over. */
  ghost predicate Repeats<T>(slices: seq<Slice<T>>, stored: seq<seq<T>>)
    requires |stored| < |slices|
  {
    forall i, j, p :: 0 <= i < j < |stored| && 0 <= p < |stored[i]| && Writes(slices, stored, j, i, p) ==>
      stored[j][p] == stored[i][p]
  }

  ghost predicate AllRight<T(!new)>(slices: seq<Slice<T>>, stored: seq<seq<T>>)
    requires Fits(slices, stored)
    reads set s | s in slices :: s.arr
  {
    forall i :: 0 <= i < |stored| ==> slices[i + 1].Contents() == stored[i]
  }

  /** A cell of entry i that entry j writes over was written last by j, or by the entry that wrote it last for j. */
  lemma SameLastWriter<T>(slices: seq<Slice<T>>, stored: seq<seq<T>>, i: nat, j: nat, p: nat)
    requires Fits(slices, stored) && i < j < |stored| && p < |stored[i]| && Writes(slices, stored, j, i, p)
    ensures LastWriter(slices, stored, i, p) in {j, LastWriter(slices, stored, j, p)}
  {
    var m, k := LastWriter(slices, stored, i, p), LastWriter(slices, stored, j, p);
    LastWriterIsLast(slices, stored, i, p);
    LastWriterIsLast(slices, stored, j, p);
    if m > j {
      assert slices[i + 1].arr == slices[m].arr && slices[j + 1].arr == slices[i + 1].arr;
      assert Writes(slices, stored, m, j, p);
      if k > j {
        assert Writes(slices, stored, k, i, p);
      }
    }
  }

  /** What was handed out is right if and only if every entry repeats what it writes over. */
  lemma AllRightIff<T(!new)>(slices: seq<Slice<T>>, stored: seq<seq<T>>)
    requires Fits(slices, stored) && Shown(slices, stored)
    ensures AllRight(slices, stored) <==> Repeats(slices, stored)
  {
    if AllRight(slices, stored) {
      forall i, j, p | 0 <= i < j < |stored| && 0 <= p < |stored[i]| && Writes(slices, stored, j, i, p)
        ensures stored[j][p] == stored[i][p]
      {
        SameLastWriter(slices, stored, i, j, p);
        assert slices[i + 1].Contents()[p] == stored[i][p] && slices[j + 1].Contents()[p] == stored[j][p];
      }
    }
    if Repeats(slices, stored) {
      forall i | 0 <= i < |stored|
        ensures slices[i + 1].Contents() == stored[i]
      {
        forall p | 0 <= p < |stored[i]|
          ensures slices[i + 1].Contents()[p] == stored[i][p]
        {
          LastWriterIsLast(slices, stored, i, p);
        }
      }
    }
  }

  /** Two entries in an unbroken row of entries that have elements. */
  predicate InARow<T(==)>(stored: seq<seq<T>>, i: int, j: int) {
    0 <= i < j < |stored| && forall m :: i <= m <= j ==> stored[m] != []
  }

  lemma WritersAreInARow<T>(slices: seq<Slice<T>>, stored: seq<seq<T>>, i: nat, j: nat, p: nat)
    requires Fits(slices, stored) && i < j < |stored| && p < |stored[i]| && Writes(slices, stored, j, i, p)
    ensures InARow(stored, i, j)
  {
    forall m | i <= m <= j
      ensures stored[m] != []
    {
      assert i < m < j ==> slices[m + 1].arr == slices[i + 1].arr;
    }
  }

  /** Whatever the decoder does about room: it is right if all entries in a row begin with the same elements, */
  lemma RightIfAllAgree<T(!new)>(slices: seq<Slice<T>>, stored: seq<seq<T>>)
    requires Fits(slices, stored) && Shown(slices, stored)
    requires forall i, j, p :: InARow(stored, i, j) && 0 <= p < |stored[i]| && p < |stored[j]| ==> stored[i][p] == stored[j][p]
    ensures AllRight(slices, stored)
  {
    forall i, j, p | 0 <= i < j < |stored| && 0 <= p < |stored[i]| && Writes(slices, stored, j, i, p)
      ensures stored[j][p] == stored[i][p]
    {
      WritersAreInARow(slices, stored, i, j, p);
    }
    AllRightIff(slices, stored);
  }

  /** and wrong if two neighbours do not. */
  lemma WrongIfNeighboursDiffer<T(!new)>(slices: seq<Slice<T>>, stored: seq<seq<T>>, i: nat, p: nat)
    requires Fits(slices, stored) && Shown(slices, stored)
    requires i + 1 < |stored| && p < |stored[i]| && p < |stored[i + 1]| && stored[i][p] != stored[i + 1][p]
    ensures !AllRight(slices, stored)
  {
    assert Writes(slices, stored, i + 1, i, p);
    AllRightIff(slices, stored);
  }
}
