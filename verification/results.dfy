/** Failure-carrying return values shared by the model.

    The program reports its failures as Python exceptions; the model
    turns each of them into an explicit value.
 */
module Results {

  /** The failures a transfer can end in. */
  datatype Error =
    /** the output word does not fit in the configured bit width */
    | ValueOutOfRange
    /** `int("", 2)`: no bit was captured, so there is no number to parse */
    | EmptyBinaryString

  datatype Result<+T> = Success(value: T) | Failure(error: Error)

  datatype Option<+T> = None | Some(value: T) {
    function GetOr(default: T): T {
      match this
      case Some(v) => v
      case None => default
    }
  }
}
