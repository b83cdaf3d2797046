/** Optional values and fallible results, shared by every other module. */
module Wrappers {
  datatype Option<+T> = None | Some(value: T)

  datatype Result<+T, +E> = Ok(value: T) | Err(error: E)
  {
    function ToOption(): Option<T> {
      if Ok? then Some(value) else None
    }
  }
}
