/** Types and small arithmetic shared by every module of the model. */
module Basics {

  datatype Option<+T> = None | Some(value: T)

  /** The error cases the modelled code distinguishes. */
  datatype Error =
    | BalanceTooLow
    | MaxRunningTradesReached
    | TradeNotRunning
    | TradeValidation
    | InvalidPrice
    | StoplossEvaluation
    | TimeSequenceViolation
    | CrossExposureValidation
    | CrossQuantityValidation
    | CrossPositionIncoherent
    | CrossFreeMarginTooLow
    | OutOfOrderCandle
    | UnexpectedEmptyBuffer
    | InvalidRange
    | InvalidSettlementTime
    | UnreachableMissing
    | NothingBeforeHistoryStart
    | ReachNotSet
    | ApiUnavailable
    | NotRoundedToMinute
    | NotOrderedByTimeDesc

  datatype Result<+T> = Ok(value: T) | Err(error: Error) {
    predicate IsFailure() {
      Err?
    }

    function PropagateFailure<U>(): Result<U>
      requires Err?
    {
      Err(error)
    }

    function Extract(): T
      requires Ok?
    {
      value
    }
  }

  datatype Side = Buy | Sell

  function Min(a: int, b: int): int {
    if a < b then a else b
  }

  function Max(a: int, b: int): int {
    if a < b then b else a
  }

  function MinReal(a: real, b: real): real {
    if a < b then a else b
  }

  function MaxReal(a: real, b: real): real {
    if a < b then b else a
  }

  function Abs(a: int): nat {
    if a < 0 then -a else a
  }

  /** Rounds half away from zero, as `f64::round` does. */
  function RoundAway(x: real): int {
    if x >= 0.0 then (x + 0.5).Floor else -((0.5 - x).Floor)
  }
}
