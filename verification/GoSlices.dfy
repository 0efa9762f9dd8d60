/** Go slices: windows on arrays that several slices may share. */
module GoSlices {

  /** arr[off..off + len], with room to grow in place up to arr[off + cap]. */
  datatype Slice<T> = Slice(arr: array<T>, off: nat, len: nat, cap: nat) {

    predicate Valid() {
      len <= cap && off + cap <= arr.Length
    }

    /** The index in arr just behind the window. */
    function End(): nat { off + len }

    function Contents(): (s: seq<T>)
      requires Valid()
      reads arr
      ensures |s| == len && s == arr[..][off..End()]
    {
      arr[off..off + len]
    }

    /** s[lo:hi] */
    function Window(lo: nat, hi: nat): (s: Slice<T>)
      requires Valid() && lo <= hi <= len
      ensures s.Valid()
    {
      Slice(arr, off + lo, hi - lo, cap - lo)
    }
  }

  /** make([]T, 0) */
  method MakeEmpty<T(0)>() returns (s: Slice<T>)
    ensures s.Valid() && s.len == 0 && s.arr.Length == 0 && s.arr[..] == [] && fresh(s.arr)
  {
    var arr := new T[0];
    s := Slice(arr, 0, 0, 0);
  }

  /** append(s, x): in place behind the window while there is room, else in a larger copy. */
  method Append<T>(s: Slice<T>, x: T) returns (r: Slice<T>)
    requires s.Valid()
    modifies s.arr
    ensures r.Valid() && r.Contents() == old(s.Contents()) + [x]
    ensures if s.len < s.cap then r == s.(len := s.len + 1) && s.arr[..] == old(s.arr[..])[s.End() := x]
            else fresh(r.arr) && r.off == 0 && r.cap == r.arr.Length && s.arr[..] == old(s.arr[..])
  {
    if s.len < s.cap {
      s.arr[s.End()] := x;
      r := s.(len := s.len + 1);
    } else {
      var room: int :| 0 <= room;
      var arr := new T[s.len + 1 + room](_ => x);
      forall i | 0 <= i < s.len {
        arr[i] := s.arr[s.off + i];
      }
      r := Slice(arr, 0, s.len + 1, s.len + 1 + room);
    }
  }
}
