/** Optional values and error-carrying results, used wherever the Python
    code returns `None` or swallows an exception and returns a failure value. */
module Wrappers {

  datatype Option<+T> = None | Some(value: T) {
    function GetOr(default: T): T {
      match this
      case Some(v) => v
      case None => default
    }
  }

  /** `Err` stands for an exception raised (and possibly caught) in the source. */
  datatype Result<+T> = Ok(value: T) | Err(reason: string)
}
