/** Small value types shared by the modules of this model. */
module Wrappers {

  /** A value that may be absent (a null pointer, an unset field). */
  datatype Option<+T> = None | Some(value: T)

  /** The outcome of a step that either produces a value or throws a textual error. */
  datatype Result<+T> = Ok(value: T) | Err(error: string)

  /**
   * An opaque controller-side (JavaScript) object. The registry and the jobs only store
   * and hand back such references; they never look inside.
   */
  datatype JsObject = JsObject(id: nat)
}
