/** Failure-compatible result types shared by every module of the model.
    A C# method that throws is modelled as a function returning `Err(e)`,
    where `e` names the exception the runtime (or the method) raises. */
module Results {

  /** The nullable (`T?`) values of the source: `None` is `null`. */
  datatype Option<+T> = None | Some(value: T) {

    /** The value, or `default` when absent (the value `double.TryParse` leaves in its `out` argument on failure is 0). */
    function GetOr(default: T): T {
      match this
      case Some(v) => v
      case None => default
    }
  }

  /** The exceptions the modelled code can raise. */
  datatype Error =
    | ArgumentOutOfRange      // System.ArgumentOutOfRangeException: List<T> indexer, Random.Next
    | IndexOutOfRange         // System.IndexOutOfRangeException: array indexing
    | NullReference           // System.NullReferenceException
    | InvalidOperation        // System.InvalidOperationException: List<T>.Sort when its comparer throws
    | OperationCanceled       // System.OperationCanceledException
    | Failure(message: string) // System.Exception thrown with an explicit message

  datatype Result<+T> = Ok(value: T) | Err(error: Error) {

    predicate IsFailure() {
      Err?
    }

    function PropagateFailure<U>(): Result<U>
      requires Err?
    {
      Err(error)
    }

    function Extract(): T
      requires Ok?
    {
      value
    }
  }
}
