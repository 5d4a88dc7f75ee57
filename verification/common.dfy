/** Small shared vocabulary: an optional value, a success/failure result,
    real minimum/maximum (Math.min / Math.max on finite numbers) and
    duplicate-freedom of a sequence. */
module Common {

  /** The JavaScript `null` / object alternative. */
  datatype Option<+T> = None | Some(value: T)

  /** An operation that either yields a value or reports why it refused. */
  datatype Result<+T, +E> = Ok(value: T) | Err(error: E)

  function Min(a: real, b: real): (m: real)
    ensures m <= a && m <= b
    ensures m == a || m == b
  {
    if a <= b then a else b
  }

  function Max(a: real, b: real): (m: real)
    ensures a <= m && b <= m
    ensures m == a || m == b
  {
    if a <= b then b else a
  }

  /** No value occurs twice. */
  predicate NoDup<T(==)>(s: seq<T>) {
    forall i, j :: 0 <= i < j < |s| ==> s[i] != s[j]
  }
}
