/** Values the game may leave unset: a difficulty field that a patch does not
    supply, or a lock that has no target (`null` in the game). */
module Wrappers {

  datatype Option<T> = None | Some(value: T) {
    /** The value when it is set, `fallback` when it is not: how a field of
        a difficulty patch overrides the current field only when supplied. */
    function GetOr(fallback: T): T {
      match this
      case Some(v) => v
      case None => fallback
    }
  }
}
