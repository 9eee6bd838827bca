/** Notions of the Kotlin/JVM runtime that the partitioning code relies on:
    nullable values, the exceptions it raises or catches, and the two ways a
    call can end (it returns a value, or it throws). */
module Lang {

  /** A Kotlin nullable value `T?`. */
  datatype Option<+T> = None | Some(value: T)

  /** The throwables that the modelled code raises, rethrows or catches.
      Only the distinction drawn by `catch (e: Exception)` matters to the
      code: `UserError` stands for every `Throwable` that is not an
      `Exception` (a `java.lang.Error` such as `OutOfMemoryError`). */
  datatype Throwable =
    | IndexOutOfBoundsException(index: int)     // List.get with a bad index
    | IllegalStateException(message: string)    // a failed `check(...)`
    | ClosedSendChannelException                 // send/offer on a channel closed without a cause
    | TypeCastException                          // a failed `as` cast, such as `null as Any`
    | UserException(message: string)            // any other Exception thrown by user code
    | UserError(message: string)                // a Throwable that is not an Exception
  {
    /** Whether `catch (e: Exception)` catches this throwable. */
    predicate IsException() {
      !UserError?
    }
  }

  /** How a Kotlin call ends: it returns `value`, or it throws `thrown`. */
  datatype Completion<+T> = Normal(value: T) | Thrown(thrown: Throwable)
}
