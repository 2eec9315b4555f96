/** Option, Result and Outcome, the failure-compatible wrappers used throughout the model. */
module Wrappers {

  datatype Option<+T> = None | Some(value: T) {
    function GetOr(default: T): T {
      match this
      case Some(v) => v
      case None => default
    }
  }

  /** A value or the exception the source would raise instead. */
  datatype Result<+R, +E> = Success(value: R) | Failure(error: E) {
    predicate IsFailure() {
      Failure?
    }

    function PropagateFailure<U>(): Result<U, E>
      requires Failure?
    {
      Failure(error)
    }

    function Extract(): R
      requires Success?
    {
      value
    }
  }

  /** The outcome of an operation that returns nothing but may raise. */
  datatype Outcome<+E> = Pass | Fail(error: E)
}

/** The exceptions the modelled code can raise, named after their cause. */
module LocaleErrors {

  datatype Error =
    | NoDefaultLocale              // IndexError: `_allowed[0]` on an empty list of locales
    | LocaleNotAllowed(code: string) // ValueError: `_allowed.index(current)` misses
    | FileNotFound(file: string)   // IOError: the context file does not exist
    | FileUnreadable(file: string) // IOError/OSError: it exists but cannot be opened
    | Malformed(file: string)      // the loader's parse error
    | NotAMapping(key: string)     // TypeError or ValueError: `dict.update` given a non-mapping
    | KeywordClash(key: string)    // TypeError: a context key collides with a parameter name
  {
    /** The errors `load` catches (`except IOError` / `except OSError`). */
    predicate IsIOError() {
      FileNotFound? || FileUnreadable?
    }
  }
}
