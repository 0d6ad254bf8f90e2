/** Optional values and results of computations that may throw. */
module Wrappers {

  /** A nullable value: `T?` in Kotlin. */
  datatype Option<+T> = None | Some(value: T)

  /**
   * The exceptions the modelled code can raise. Each names the JVM exception
   * class it stands for; none of them is `android.net.ParseException`.
   */
  datatype Exception =
    | NullCast                     // `null as T`: the key is absent or holds JSON null
    | ClassCast                    // the value has another JSON type
    | IndexOutOfBounds             // `list[0]` on an empty list
    | NumberFormat(text: string)   // `String.toLong` / `String.toDouble` rejected the text
    | DateParse(text: string)      // `SimpleDateFormat.parse` rejected the text (java.text.ParseException)
    | NoSuchElement                // `List.last()` on an empty list
    | Network(reason: string)      // the feed request itself failed

  /** The outcome of a call that either returns a value or throws. */
  datatype Result<+T> = Success(value: T) | Failure(error: Exception) {
    predicate IsFailure() { Failure? }

    function PropagateFailure<U>(): Result<U>
      requires Failure?
    {
      Failure(error)
    }

    function Extract(): T
      requires Success?
    {
      value
    }
  }
}
