/** Option and Result datatypes used for the error returns of the model. */
module Wrappers {

  datatype Option<+T> = None | Some(value: T)

  /** The exceptions the Python code raises on its own error paths. */
  datatype Error =
    | IndexError      // indexing an empty sequence or a missing position
    | KeyError        // looking up a key a dict does not hold
    | ValueError      // a malformed literal or an explicit `raise ValueError`
    | ZeroDivision    // a float division by zero
    | AttributeError  // reading an attribute an object was never given

  datatype Result<+T> = Ok(value: T) | Err(error: Error)
}
