/** Failure-carrying datatypes shared by every module of the model.
    `Option.None` stands for a JSON null, a missing key or a numpy NaN. */
module Wrappers {

  datatype Option<+T> = None | Some(value: T) {

    /** The carried value, or `default` when absent (Python's `d.get(k, default)`). */
    function GetOr(default: T): T {
      match this
      case Some(v) => v
      case None => default
    }
  }

  /** Either a value or the exception the script would raise. */
  datatype Result<+T, +E> = Ok(value: T) | Err(error: E)
}
