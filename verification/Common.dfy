/** Types shared by the models. */
module Common {

  datatype Option<+T> = None | Some(value: T)

  /** A call that either returns or raises. */
  datatype Result<+T, +E> = Ok(value: T) | Err(error: E)

  /** What an analyst decides at the human gate. */
  datatype DecisionType = Approve | Edit | Reject | Redirect

  function Last<T>(s: seq<T>): T
    requires s != []
  {
    s[|s| - 1]
  }
}
