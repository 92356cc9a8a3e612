/** Go slices: a header (pointer, length) over a shared backing array. Headers are values and may
    alias; the capacity runs to the end of the array. */
module GoSlice {
  import opened BulkData

  datatype Slice = Slice(arr: array<Data>, off: nat, len: nat) {
    ghost predicate Valid() {
      off + len <= arr.Length
    }

    function Contents(): seq<Data>
      requires Valid()
      reads arr
    {
      arr[off..off + len]
    }

    /** `s[:n]` */
    function Take(n: nat): Slice
      requires n <= len
    {
      Slice(arr, off, n)
    }

    /** `s[n:]` */
    function Drop(n: nat): Slice
      requires n <= len
    {
      Slice(arr, off + n, len - n)
    }
  }

  /** Go's `append`: writes in place when the capacity allows it, otherwise moves to a new, larger
      array. How much larger is up to the runtime. */
  method Append(s: Slice, x: Data) returns (r: Slice)
    requires s.Valid()
    modifies s.arr
    ensures r.Valid() && r.Contents() == old(s.Contents()) + [x]
    ensures r.arr == s.arr ==> r.off == s.off
    ensures r.arr != s.arr ==> fresh(r.arr)
    ensures s.arr[..s.off + s.len] == old(s.arr[..s.off + s.len])
  {
    if s.off + s.len < s.arr.Length {
      s.arr[s.off + s.len] := x;
      r := Slice(s.arr, s.off, s.len + 1);
    } else {
      var spare: nat :| true;
      var bigger := new Data[s.len + 1 + spare];
      forall i | 0 <= i < s.len {
        bigger[i] := s.arr[s.off + i];
      }
      bigger[s.len] := x;
      r := Slice(bigger, 0, s.len + 1);
      assert bigger[..s.len] == s.Contents();
    }
  }
}
