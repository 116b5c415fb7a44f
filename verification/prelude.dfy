/** Small shared vocabulary of both stores: optional values and the clock. */
module Prelude {

  /** A value that may be missing: TypeScript's `field?: T` and `T | null`. */
  datatype Option<+T> = None | Some(value: T) {

    /** The wrapped value, or `default` when there is none (`??` in TypeScript). */
    function GetOr(default: T): T
    {
      match this
      case Some(v) => v
      case None => default
    }
  }

  /** A point in time, in milliseconds since the epoch, as `Date.now()` reports it. */
  type Time = int
}
