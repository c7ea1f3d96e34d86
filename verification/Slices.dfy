/** Go byte slices: a window on a backing array, with spare capacity that `append` may reuse. */
module Slices {
  import opened Bytes

  datatype Slice = Slice(arr: array<byte>, off: nat, len: nat, cap: nat) {

    ghost predicate Valid() {
      len <= cap && off + cap <= arr.Length
    }

    function View(): (v: Bytes)
      requires Valid()
      reads arr
      ensures |v| == len
    {
      arr[off..off + len]
    }

    /** `s[lo:hi]`, which in Go may reach up to the capacity. */
    function Sub(lo: nat, hi: nat): (s: Slice)
      requires Valid() && lo <= hi <= cap
      ensures s.Valid() && s.arr == arr
    {
      Slice(arr, off + lo, hi - lo, cap - lo)
    }
  }

  /** A slice of what is visible is a slice of the bytes. */
  lemma SubView(s: Slice, lo: nat, hi: nat)
    requires s.Valid() && lo <= hi <= s.len
    ensures s.Sub(lo, hi).View() == s.View()[lo..hi]
  {
  }

  /** Whether `append(s, tail...)` of `n` bytes stays in the backing array of `s`. */
  predicate Reuses(s: Slice, n: nat) {
    s.len + n <= s.cap
  }

  /** `append(s, tail...)`: in place when the capacity allows it, otherwise in a new array. */
  method Append(s: Slice, tail: Bytes) returns (r: Slice)
    requires s.Valid()
    modifies s.arr
    ensures r.Valid() && r.View() == old(s.View()) + tail
    ensures s.len + |tail| <= s.cap ==> r == s.(len := s.len + |tail|)
    ensures s.len + |tail| <= s.cap ==>
              var end := s.off + s.len;
              forall p :: 0 <= p < s.arr.Length ==>
                s.arr[p] == if end <= p < end + |tail| then tail[p - end] else old(s.arr[p])
    ensures s.len + |tail| > s.cap ==> fresh(r.arr) && s.arr[..] == old(s.arr[..])
  {
    if s.len + |tail| <= s.cap {
      r := s.(len := s.len + |tail|);
      var from := s.off + s.len;
      forall i | 0 <= i < |tail| {
        s.arr[from + i] := tail[i];
      }
    } else {
      ghost var was := s.arr[..];
      var n := s.len + |tail|;
      var kept := s.View();
      var a := new byte[n](i requires 0 <= i < n => if i < |kept| then kept[i] else tail[i - |kept|]);
      r := Slice(a, 0, n, n);
      assert s.arr[..] == was;
    }
  }
}
