/** Failure-carrying values, the Python exceptions the two scripts can raise, and the byte.
    Neither script catches an exception, so every failure below ends the run. */
module Results {

  /** An element of a Python `bytes` value. */
  newtype byte = x: int | 0 <= x < 256

  /** The exceptions that can escape from the modelled code. */
  datatype Exception =
    | IndexError      // `packet.data[-1]` on an empty string, `findall(...)[k]` past the end
    | ValueError      // `int(...)`, `float(...)` or `bytes.fromhex(...)` on malformed text
    | StructError     // `struct.pack` given a value outside the field's range
    | AttributeError  // `.group(1)` on the `None` that a failed `re.search` returns

  datatype Result<+T> = Success(value: T) | Failure(error: Exception) {
    predicate IsFailure() { Failure? }

    function PropagateFailure<U>(): Result<U>
      requires Failure?
    {
      Failure(error)
    }

    function Extract(): T
      requires Success?
    {
      value
    }
  }

  /** The result of an action that produces nothing but may raise. */
  datatype Outcome = Pass | Fail(error: Exception)
}
