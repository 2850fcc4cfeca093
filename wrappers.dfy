/** Optional values and the exceptions the JavaScript engine raises in the core. */
module Wrappers {

  datatype Option<+T> = None | Some(value: T)

  /**
   * The two faults the core can run into: a `DataView` placed or read outside
   * its buffer raises RangeError; reading a property of `undefined` raises
   * TypeError.
   */
  datatype Fault = RangeError | TypeError

  datatype Result<+T> = Ok(value: T) | Failure(fault: Fault)
}
