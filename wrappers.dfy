/** The value a cache lookup yields: a stored value, or nothing. Unlike the
    `null` of the original, `None` cannot be confused with a stored value. */
module Wrappers {

  datatype Option<+T> = None | Some(value: T)
}
