/** Success/failure values standing for the exceptions the pipeline raises. */
module Results {

  /** Either the computed value or the reason the step gave up. */
  datatype Result<+T, +E> = Success(value: T) | Failure(error: E)
}
