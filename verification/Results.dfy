/** What an operation returns that can fail. */
module Results {

  datatype Result<T, E> = Ok(value: T) | Failed(error: E)
}
