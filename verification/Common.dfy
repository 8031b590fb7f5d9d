/** Shared vocabulary: optional values, results of transactions and the errors they end with. */
module Common {

  datatype Option<+T> = None | Some(value: T)

  /** Every transaction either commits, giving a value, or aborts with one of the store's errors. */
  datatype Result<+T> = Ok(value: T) | Err(error: StoreError)
  {
    predicate IsFailure() {
      Err?
    }

    function PropagateFailure<U>(): Result<U>
      requires Err?
    {
      Err(error)
    }

    function Extract(): T
      requires Ok?
    {
      value
    }
  }

  datatype StoreError =
    | NotFound
    | DuplicateKey          // a primary key already exists
    | ForeignKeyViolation   // the referenced row does not exist
    | NotNullViolation      // a mandatory column is nil
    | MissingEventId        // an outbox event without idempotency key
    | LengthMismatch        // eventIDs and eventsSent differ in length
    | Unavailable           // a service did not answer
    | Undecodable           // a stored configuration cannot be read

  type ConnectorId = string
  type Time = int

  ghost function AsSet<T>(s: seq<T>): set<T> {
    set x | x in s
  }

  function Min(a: int, b: int): int {
    if a <= b then a else b
  }
}
