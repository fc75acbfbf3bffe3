// A value, or the number of the diagnostic that took its place.
module Results {
  datatype Result<T> = Ok(value: T) | Error(code: nat)
}
