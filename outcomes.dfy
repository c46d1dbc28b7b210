/** Optional values, the exceptions the model distinguishes, and the outcome of a
    Python call that either returns a value or raises. */
module Outcomes {

  datatype Option<T> = None | Some(value: T)

  /** The exceptions that matter to the plugin's control flow. */
  datatype Failure =
    | RemoteError     // a request, JSON decoding or XML parsing failed
    | TypeError       // a call with the wrong number of arguments
    | AttributeError  // a read of an instance attribute that was never assigned

  datatype Outcome<T> = Raised(error: Failure) | Returned(value: T)
}
