/** The optional value used wherever the Java code can throw instead of producing a result. */
module Wrappers {

  /** `None` stands for "an exception was thrown here"; `Some(v)` for a normal result `v`. */
  datatype Option<+T> = None | Some(value: T)
}
