/**
  A value that may be missing: a lane that is not active, an instruction that is not there, a stream that is not named.
 */
module Options {
  datatype Option<T> = None | Some(value: T)
}
