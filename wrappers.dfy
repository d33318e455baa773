module Wrappers {

  datatype Option<+T> = None | Some(value: T)

  /** n copies of x. */
  function Repeat<T>(x: T, n: nat): (r: seq<T>)
    ensures |r| == n && forall i :: 0 <= i < n ==> r[i] == x
  {
    seq(n, _ => x)
  }
}
