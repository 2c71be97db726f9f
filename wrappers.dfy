/** Optional values and results. The error side names the Python exception
    that the modelled code raises; every such exception aborts the whole run. */
module Wrappers {

  datatype Option<+T> = None | Some(value: T)

  /** The Python exceptions the modelled code can raise. */
  datatype Exception =
    | AssertionError   // a failed `assert`
    | KeyError         // a dictionary lookup of a missing key
    | IndexError       // a list index out of range
    | ValueError       // `max` of an empty sequence
    | TypeError        // unpacking `None`

  datatype Result<+T> = Ok(value: T) | Err(error: Exception)
}
