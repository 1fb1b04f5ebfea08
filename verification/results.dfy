/** Failure-carrying values shared by the whole model.

    The numeric helpers of the mass-spring-damper experiment signal errors by
    raising Python exceptions. Every exception that a reachable input can raise
    is modelled as an `Error` value inside a `Result`; floating-point NaN and
    infinity (division by zero, the mean of an empty array) are excluded by
    preconditions instead.
 */
module Results {

  /** The Some/None datatype, used where the source uses `None`. */
  datatype Option<+T> = None | Some(value: T)

  /** The exceptions raised by the modelled helpers. */
  datatype Error =
    | RankError(ndim: nat)   // ValueError: an array of a rank the helper does not accept
    | IndexError             // IndexError: an index outside an array axis
    | BroadcastError         // ValueError: two shapes numpy cannot broadcast together
    | InvalidArgument        // TensorFlow InvalidArgumentError: slicing row 0 of an empty tensor

  datatype Result<+T> = Ok(value: T) | Err(error: Error)
}
