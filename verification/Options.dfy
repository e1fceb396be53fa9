/** Small helpers shared by the other modules. */
module Options {
  /** The optional value used where the source returns a value and an "ok" flag. */
  datatype Option<+T> = None | Some(value: T) {
    function UnwrapOr(other: T): T {
      if None? then other else value
    }
  }

  datatype Result<+T, +E> = Success(value: T) | Failure(error: E)

  /** A member of a non-empty set, for loops over a map's keys in arbitrary order. */
  lemma Member<T>(s: set<T>) returns (x: T)
    requires s != {}
    ensures x in s
  {
    x :| x in s;
  }
}
