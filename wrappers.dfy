/** Small value wrappers shared by every module of the exam application model. */
module Wrappers {

  /** An optional value: the source's `undefined`/`null` versus a present value. */
  datatype Option<+T> = None | Some(value: T) {

    /** The wrapped value, or `default` when absent (the source's `x || default`). */
    function GetOr(default: T): T
    {
      match this
      case Some(v) => v
      case None => default
    }
  }

  /** The answer of one call into the hosted record store: the record it returned,
      or the error it raised (its message is what the page shows in a toast). */
  datatype Reply<+T> = Ok(value: T) | Failed(message: string)
}
