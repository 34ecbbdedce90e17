/** Small shared datatypes. */
module Common {

  /** A value that may be missing: JavaScript's `null`/`undefined` on the model side. */
  datatype Option<+T> = None | Some(value: T)
}
