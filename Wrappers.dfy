/** Failure-carrying results used in place of the exceptions the domain throws. */
module Wrappers {

  datatype Option<+T> = None | Some(value: T)

  /** The value an operation returns, or the error it raised instead. */
  datatype Result<+R, +E> = Success(value: R) | Failure(error: E)

  /** The outcome of an operation that returns nothing but may raise an error. */
  datatype Outcome<+E> = Pass | Fail(error: E)
}

/** The error kinds the domain raises. */
module Errors {

  datatype Error =
    | InvalidAmount            // Money: negative amount
    | InvalidCurrency          // Money: empty or white-space currency
    | CurrencyMismatch         // Money arithmetic or comparison across currencies
    | IllegalStateTransition   // an operation called from a state that forbids it
    | AccountNotActive         // a funds operation on an account that is not Active
    | InsufficientFunds        // a withdrawal larger than the available balance
    | InvalidArgument          // a negative rate, an out-of-range risk score
    | DivideByZero             // integer division by zero
    | ArithmeticOverflow       // Int32.MinValue / -1
    | NotFound                 // a lookup by id found nothing
    | NotEligible              // a loan amount outside the product's eligible range
}
