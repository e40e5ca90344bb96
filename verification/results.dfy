/**
 * The success-or-error value used wherever the modelled Python code raises an
 * exception instead of returning.
 */
module Results {

  datatype Result<T, E> = Ok(value: T) | Err(error: E)

}
