/** Results of operations that may throw. */
module Results {
  datatype Result<+T> = Ok(value: T) | Thrown

  datatype Option<+T> = None | Some(value: T)
}
