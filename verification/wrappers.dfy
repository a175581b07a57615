/** Failure-carrying result types shared by the rules engine and the game
    lifecycle. Every `require!` of the contract, and every panic, aborts the
    whole transaction; in the model both become a `Fail` / `Failure` value. */
module Wrappers {

  /** An optional value (the contract's `Option<ManagedAddress>` slots). */
  datatype Option<+T> = None | Some(value: T)

  /** A requirement check: it either passes or fails with a reason. */
  datatype Outcome<+E> = Pass | Fail(error: E)

  /** A computation that either yields a value or fails with a reason. */
  datatype Result<+R, +E> = Success(value: R) | Failure(error: E)

  /** Turns a boolean requirement into an outcome, as `require!` does. */
  function Require<E>(condition: bool, error: E): Outcome<E>
  {
    if condition then Pass else Fail(error)
  }
}
