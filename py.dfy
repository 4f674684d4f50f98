/** Python semantics shared by the models: the exceptions a call can raise,
    list slicing with negative and out-of-range bounds, and list indexing
    with negative indices. */
module Py {

  /** The Python exceptions the modelled code can raise. */
  datatype Error = IndexError | KeyError | TypeError | ValueError | ZeroDivisionError

  /** The outcome of a call that may raise: a value, or the exception. */
  datatype Result<+T> = Ok(value: T) | Err(error: Error) {
    predicate IsFailure() { Err? }

    function PropagateFailure<U>(): Result<U>
      requires Err?
    {
      Err(error)
    }

    function Extract(): T
      requires Ok?
    {
      value
    }
  }

  datatype Option<+T> = None | Some(value: T)

  function Abs(x: int): nat { if x < 0 then -x else x }

  function Max(a: int, b: int): int { if a < b then b else a }

  function Min(a: int, b: int): int { if a < b then a else b }

  /** A slice bound as Python resolves it against a list of length n:
      negative bounds count from the end, out-of-range bounds are clamped. */
  function Clamp(i: int, n: nat): (r: nat)
    ensures r <= n
    ensures 0 <= i <= n ==> r == i
    ensures i < 0 <= i + n ==> r == i + n
    ensures i + n < 0 ==> r == 0
    ensures n < i ==> r == n
  {
    if i < 0 then (if i + n < 0 then 0 else i + n) else (if i > n then n else i)
  }

  /** `s[i:j]` in Python. */
  function Slice<T>(s: seq<T>, i: int, j: int): seq<T>
  {
    var a := Clamp(i, |s|);
    var b := Clamp(j, |s|);
    if a < b then s[a..b] else []
  }

  /** `s[i:]` in Python. */
  function SliceFrom<T>(s: seq<T>, i: int): seq<T> { Slice(s, i, |s|) }

  /** `s[:j]` in Python. */
  function SliceTo<T>(s: seq<T>, j: int): seq<T> { Slice(s, 0, j) }

  /** `s[-k:]` for 0 < k: the last min(k, |s|) elements. */
  lemma LastK<T>(s: seq<T>, k: int)
    requires 0 < k
    ensures SliceFrom(s, -k) == s[|s| - Min(k, |s|)..]
  {
  }

  /** `s[:-k]` and `s[-k:]` for 0 < k split s at max(0, |s| - k). */
  lemma SplitAtMinusK<T>(s: seq<T>, k: int)
    requires 0 < k
    ensures SliceTo(s, -k) == s[..Max(0, |s| - k)]
    ensures SliceFrom(s, -k) == s[Max(0, |s| - k)..]
  {
  }

  /** The position a Python list index denotes in a list of length n, if any. */
  function NormIndex(i: int, n: nat): (r: Option<nat>)
    ensures r.Some? <==> 0 <= i + n && i < n
    ensures r.Some? ==> r.value < n && (r.value == i || r.value == i + n)
  {
    if 0 <= i < n then Some(i) else if i < 0 <= i + n then Some(i + n) else None
  }
}
