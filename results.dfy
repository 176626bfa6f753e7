/** Explicit error results: the Python script signals these cases by raising
    exceptions (or by never returning); the model returns them as values. */
module Results {

  datatype Result<T, E> = Ok(value: T) | Err(error: E)

}
