/**
 * The exceptions the Ruby library raises, a failure-compatible result type for them, and
 * an optional value for Ruby's `nil`.
 */
module Results {

  /** A Ruby exception class together with the message the library raises it with. */
  datatype Error =
    | ArgumentError(message: string)
    | IndexError(message: string)
    | TypeError(message: string)
    | NoMethodError(message: string)

  /** Either the value an operation returns or the exception it raises. */
  datatype Result<+T> = Success(value: T) | Failure(error: Error) {

    predicate IsFailure() {
      Failure?
    }

    function PropagateFailure<U>(): Result<U>
      requires Failure?
    {
      Failure(error)
    }

    function Extract(): T
      requires Success?
    {
      value
    }
  }

  /** A value that may be Ruby's `nil`. */
  datatype Option<+T> = None | Some(value: T)

  /** The decimal digits of `n`, as Ruby's string interpolation writes an Integer. */
  function DecimalString(n: nat): (r: string)
    ensures |r| > 0
    ensures forall i :: 0 <= i < |r| ==> '0' <= r[i] <= '9'
  {
    var digit := ['0', '1', '2', '3', '4', '5', '6', '7', '8', '9'][n % 10];
    if n < 10 then [digit] else DecimalString(n / 10) + [digit]
  }
}
