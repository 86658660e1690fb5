/** Datatypes for absence and failure, and facts shared by every component. */
module Wrappers {

  /** A value that may be absent: the source's `None`. */
  datatype Option<+T> = None | Some(value: T) {
    function GetOr(default: T): T {
      match this
      case Some(v) => v
      case None => default
    }
  }

  /** A value or the exception that the source raises instead. */
  datatype Result<+T, +E> = Ok(value: T) | Err(error: E)

  /** SQL and Cypher `COALESCE(kept, other)`. */
  function Coalesce<T>(kept: Option<T>, other: Option<T>): Option<T> {
    if kept.Some? then kept else other
  }

  /** A part has no more elements than the whole. */
  lemma SubsetIsSmall<T>(a: set<T>, b: set<T>)
    requires a <= b
    ensures |a| <= |b|
  {
    assert b == a + (b - a);
  }
}
