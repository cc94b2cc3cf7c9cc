/** Outcomes of calls: a value, or the reason the call threw. */
module Results {
  datatype Error =
    | EmptyToken
    | IdenticalTokens
    | ZeroAmount
    | NoReserves
    | OutputExceedsReserves
    | DivisionByZero
    | PathTooShort
    | SizeMismatch
    | PairMissing
    | NoLiquidity
    | InsufficientLpBalance
    | InsufficientAmount
    | InsufficientLiquidityMinted
    | InsufficientLiquidityBurned
    | InsufficientBalance
    | MinimumNotMet
    | InsufficientOutput
    | ExcessiveInput
    | LiquidityExhausted
      /** Not a throw: the call loops forever and changes nothing but the pair it may have created. */
    | NeverReturns

  datatype Result<+T> = Ok(value: T) | Err(error: Error) {
    predicate IsFailure() { Err? }
    function PropagateFailure<U>(): Result<U>
      requires Err?
    {
      Err(error)
    }
    function Extract(): T
      requires Ok?
    {
      value
    }
  }
}
