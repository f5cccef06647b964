/** A value that may be absent: Go's nil pointers, failed lookups and refused rows. */
module Options {
  datatype Option<+T> = None | Some(value: T)
}
