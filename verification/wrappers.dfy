/** Failure-compatible option type shared by every module of the model. */
module Wrappers {

  /** `None` stands for JavaScript's `null`/`undefined` or Python's `None`. */
  datatype Option<+T> = None | Some(value: T) {

    /** The wrapped value, or `default` when there is none (`x ?? default`). */
    function GetOr(default: T): T {
      match this
      case Some(v) => v
      case None => default
    }
  }
}
