/** Outcomes of operations that raise. */
module Results {

  datatype Result<+T> = Ok(value: T) | Error(reason: string)
}
