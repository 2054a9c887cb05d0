/** Optional values and error-carrying results, as used by the decoder
    (C++ `esphome::optional<bool>`) and the configuration rules (Python
    exceptions). */
module Wrappers {

  datatype Option<+T> = None | Some(value: T) {

    /** The contained value, or `default` when there is none
        (`optional::value_or`). */
    function GetOr(default: T): T {
      match this
      case Some(v) => v
      case None => default
    }
  }

  /** Either a value or the error that the source raises instead of it. */
  datatype Result<+T, +E> = Ok(value: T) | Err(error: E)
}
