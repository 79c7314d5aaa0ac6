/** Failure-carrying values shared by every module of the model.

    The source signals every failure by raising an exception (almost always
    `ValueError`); the model returns a `Result` whose error names the
    condition that raised. */
module Wrappers {

  datatype Option<+T> = None | Some(value: T)

  /** What went wrong, one constructor per raising condition of the source. */
  datatype Error =
    | BadFrequency      // frequency text does not match `<digits><m|h|d>`
    | ZeroStep          // a zero-length step reaches `ts % step`
    | BadMode           // snap mode is not floor, ceil or nearest
    | NotUtc            // an instant is naive or has a non-zero UTC offset
    | EmptyTitle        // event title is blank after stripping
    | BadPeriod         // an indicator period is not positive
    | BadPeriodOrder    // SMA cross with fast_period >= slow_period
    | UnknownMarket     // market symbol missing even after a reload
    | BadTimeframe      // exchange timeframe is unknown or not positive
    | NoOhlcv           // the exchange returned no usable candle
    | InsufficientData  // not enough candles for the indicator
    | InvalidWindow     // snapped window end is not after its start
    | FutureWindow      // snapped window end lies after `now`
    | ExchangeFailure   // a call into the exchange raised
    | Unavailable       // no indicator value at or before the target time
    | MixedAwareness    // a naive and an aware datetime are compared
    | BadSetting        // `int(...)` of a configuration value raises
    | RepositoryFailure // a repository call outside any handler raises

  datatype Result<+T> = Ok(value: T) | Err(error: Error) {
    predicate IsFailure() { Err? }

    function PropagateFailure<U>(): Result<U>
      requires Err?
    {
      Err(error)
    }

    function Extract(): T
      requires Ok?
    {
      value
    }
  }
}
