/** Shared vocabulary: optional values, results of calls that may raise, and sequence facts. */
module Common {

  /** A value that may be absent (Python's None). */
  datatype Option<T> = None | Some(value: T)

  /** A value, or the exception that escaped the call that was to produce it. */
  datatype Result<T, E> = Success(value: T) | Failure(error: E)

  /** No element occurs twice in `s`. */
  predicate NoDuplicates<T(==)>(s: seq<T>) {
    forall i, j :: 0 <= i < j < |s| ==> s[i] != s[j]
  }

  /** The elements of `s`, as a set (Python's `set(s)`). */
  function Elems<T>(s: seq<T>): set<T> {
    set x | x in s
  }
}
