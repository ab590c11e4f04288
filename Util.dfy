/** Small value types and sequence facts shared by the proxy and solver models. */
module Util {

  /** Python's `Optional[...]`: a value or `None`. */
  datatype Option<+T> = None | Some(value: T)

  /** A value, or the exception the Python code raises instead of returning. */
  datatype Result<+T, +E> = Ok(value: T) | Err(error: E)

  function Min(a: int, b: int): int { if a <= b then a else b }

  function Max(a: int, b: int): int { if a <= b then b else a }

  /** `xs` occurs in `ys` in order, possibly with gaps. */
  predicate Subsequence<T(==)>(xs: seq<T>, ys: seq<T>)
    decreases |ys|
  {
    if xs == [] then true
    else if ys == [] then false
    else if xs[0] == ys[0] then Subsequence(xs[1..], ys[1..])
    else Subsequence(xs, ys[1..])
  }

  lemma {:induction false} SubsequenceElements<T>(xs: seq<T>, ys: seq<T>)
    requires Subsequence(xs, ys)
    ensures |xs| <= |ys|
    ensures forall x :: x in xs ==> x in ys
    decreases |ys|
  {
    if xs != [] {
      if xs[0] == ys[0] {
        SubsequenceElements(xs[1..], ys[1..]);
        assert ys == [ys[0]] + ys[1..];
        assert xs == [xs[0]] + xs[1..];
      } else {
        SubsequenceElements(xs, ys[1..]);
      }
    }
  }

  /**
   * Python's slice `xs[:m]`: for `m >= 0` the first `min(m, |xs|)` elements;
   * a negative `m` drops `-m` elements from the end.
   */
  function SliceTo<T>(xs: seq<T>, m: int): (r: seq<T>)
    ensures |r| <= |xs| && r == xs[..|r|]
    ensures m >= 0 ==> |r| == Min(m, |xs|)
    ensures m < 0 ==> |r| == Max(0, |xs| + m)
  {
    if m >= |xs| then xs
    else if m >= 0 then xs[..m]
    else if |xs| + m <= 0 then []
    else xs[..|xs| + m]
  }
}
