/** Option and Result, the two wrappers the model uses for Go's nil values
    and for the panic that aborts a conversion. */
module Wrappers {

  datatype Option<+T> = None | Some(value: T)

  datatype Result<+T, +E> = Ok(value: T) | Err(error: E)

  /** The elements an optional value contributes to a list: none or one. */
  function Present<T>(o: Option<T>): (s: seq<T>)
    ensures |s| <= 1
  {
    if o.Some? then [o.value] else []
  }
}
