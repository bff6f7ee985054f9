/** Outcomes of operations that can raise, and the exception kinds the
    modelled Python code raises or catches. */
module Results {

  datatype Option<+T> = None | Some(value: T)

  /** The exceptions that the modelled code raises, catches or lets escape. */
  datatype Exception =
    | KeyError(key: string)
    | IndexError
    | ValueError(message: string)
    | TypeError
    | AttributeError(name: string)
    /** `dmutils.data_tools.ValidationError` */
    | ValidationError(message: string)
    /** `cryptography.fernet.InvalidToken` */
    | InvalidToken
    /** `dmutils.content_loader.QuestionNotFoundError` */
    | QuestionNotFound(field: string)
    /** Python 2 `str()` of text that is not ASCII */
    | UnicodeEncodeError
    /** Python 2 implicit ASCII decoding of a byte string that is not ASCII */
    | UnicodeDecodeError
    /** a `datetime` beyond the year 9999 */
    | OverflowError
    /** a failed `assert` statement */
    | AssertionError
    /** a bare `Exception(message)` */
    | Failure(message: string)

  /** A value, or the exception raised instead of producing it. */
  datatype Result<+T> = Ok(value: T) | Raise(error: Exception) {
    predicate IsFailure() { Raise? }

    function PropagateFailure<U>(): Result<U>
      requires Raise?
    {
      Raise(error)
    }

    function Extract(): T
      requires Ok?
    {
      value
    }
  }
}
