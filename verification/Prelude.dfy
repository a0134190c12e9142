/** Types every other module shares: optional values, and results that carry a domain error. */
module Prelude {

  datatype Option<+T> = None | Some(value: T)

  /** One constructor per error the services raise, named after its code. */
  datatype Error =
    | CartNotFound
    | CartExpired
    | CartEmpty
    | CartLineNotFound
    | VariantNotFound
    | OrderNotFound
    | InvalidQuantity
    | InsufficientStock
    | NoStockRecord
    | PaymentFailed
    | UnknownPaymentProvider
    | InvalidStatusTransition
    | NoRegionConfigured
    | ExchangeRateUnavailable
    | InvalidDecimalOperation
    | IntegrityError
    | ColumnOverflow

  datatype Result<+T> = Ok(value: T) | Err(error: Error) {
    predicate IsFailure() {
      Err?
    }

    function PropagateFailure<U>(): Result<U>
      requires Err?
    {
      Err(error)
    }

    function Extract(): T
      requires Ok?
    {
      value
    }
  }

  function Max(a: int, b: int): int {
    if a >= b then a else b
  }

  function Abs(a: int): nat {
    if a >= 0 then a else -a
  }
}
