/** Go slices that start at the front of their backing array: the first `len` elements of it. */
module Slices {

  datatype Slice<T> = Slice(arr: array<T>, len: nat) {
    ghost predicate Valid() {
      len <= arr.Length
    }

    /** No room to append anything in place. */
    ghost predicate Full() {
      len == arr.Length
    }

    ghost function Contents(): seq<T>
      requires Valid()
      reads arr
    {
      arr[..len]
    }
  }

  /** `append` of one element. The capacity of a new array is the runtime's choice. */
  method Append<T>(s: Slice<T>, x: T) returns (r: Slice<T>)
    requires s.Valid()
    modifies s.arr
    ensures r.Valid() && r.len == s.len + 1
    ensures if s.len < s.arr.Length then r.arr == s.arr else fresh(r.arr)
    ensures r.Contents() == old(s.Contents()) + [x]
    ensures s.Contents() == old(s.Contents())
  {
    if s.len < s.arr.Length {
      s.arr[s.len] := x;
      r := Slice(s.arr, s.len + 1);
    } else {
      var capacity: nat :| capacity >= s.len + 1;
      var arr := new T[capacity](_ => x);
      for i := 0 to s.len
        invariant forall k | 0 <= k < i :: arr[k] == s.arr[k]
        invariant s.arr[..s.len] == old(s.arr[..s.len])
      {
        arr[i] := s.arr[i];
      }
      arr[s.len] := x;
      r := Slice(arr, s.len + 1);
    }
  }

  /** An array of which the first `l` elements are in use, after element `i` of them was taken out. */
  function ShiftedOut<T>(view: seq<T>, i: nat, l: nat): (r: seq<T>)
    requires i < l <= |view|
    ensures |r| == |view|
  {
    view[..i] + view[i+1..l] + view[l-1..]
  }

  /** `append(s[:i], s[i+1:]...)`: the rest moves one place to the front, in the same array. */
  method RemoveAt<T>(s: Slice<T>, i: nat) returns (r: Slice<T>)
    requires s.Valid() && i < s.len
    modifies s.arr
    ensures r == Slice(s.arr, s.len - 1)
    ensures s.arr[..] == ShiftedOut(old(s.arr[..]), i, s.len)
  {
    for k := i to s.len - 1
      invariant forall m | 0 <= m < s.arr.Length ::
          s.arr[m] == if i <= m < k then old(s.arr[m+1]) else old(s.arr[m])
    {
      s.arr[k] := s.arr[k+1];
    }
    r := Slice(s.arr, s.len - 1);
  }

  /** A slice that was built up by `append`, in an array nobody else has, of any capacity that is large enough. */
  method Built<T>(t: seq<T>) returns (r: Slice<T>)
    ensures fresh(r.arr) && r.Valid() && r.Contents() == t
  {
    var capacity: nat :| capacity >= |t| && (t == [] ==> capacity == 0);
    var arr := new T[capacity](i requires 0 <= i < capacity => if i < |t| then t[i] else t[0]);
    r := Slice(arr, |t|);
  }

  /** Writes `t` over the front of the array. */
  method Overwrite<T>(s: Slice<T>, t: seq<T>)
    requires s.Valid() && |t| == s.len
    modifies s.arr
    ensures s.Contents() == t
  {
    for i := 0 to s.len
      invariant s.arr[..i] == t[..i]
    {
      s.arr[i] := t[i];
    }
  }
}
