/** Optional values, results and the exceptions the interface-set code raises. */
module Outcomes {

  /** The Python `None` versus a present value. */
  datatype Option<+T> = None | Some(value: T)

  /** The exceptions the interface-set code raises, named after their cause. */
  datatype Error =
    | ReconcileError  // RuntimeError: the lengths of minvals and maxvals cannot be reconciled
    | IndexError      // a list index out of range (also `minvals[0]` on an empty list)
    | KeyError        // `get_lambda` on a volume that is not a key of the lookup table
    | ArityError      // TypeError: the two-argument volume function called with one argument
    | NameError       // a name that is not bound where the code evaluates it

  /** The value a Python call returns, or the exception it raises. */
  datatype Result<+T> = Ok(value: T) | Err(error: Error)
}
