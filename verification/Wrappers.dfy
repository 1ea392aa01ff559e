/** Optional values and the two ways a call in the system can end. */
module Wrappers {
  datatype Option<+T> = None | Some(value: T)

  datatype Result<+T, +E> = Ok(value: T) | Err(error: E)

  /** The exception classes of quant_data/errors.py that the model tells apart. */
  datatype Fault = ValidationFault | ConflictFault | ResourceLimit | StorageFault | OtherFault
}
