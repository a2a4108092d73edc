/** Failure-compatible result types and the library's error kinds.

    The library keeps three kinds of failure apart: a mistake in the option
    schema (a definition error), a bad argument vector typed by the end user
    (a usage error), and a misuse of the API itself (an unchecked Java
    exception: IllegalArgumentException or IndexOutOfBoundsException).
 */
module Results {

  datatype Option<+T> = None | Some(value: T)

  /** Why the end user's argument vector was refused. */
  datatype UsageReason =
    | UnknownShortName(name: string)
    | UnknownLongName(name: string)
    | EmptyOption
    | NoShortOption(name: string)
    | MergeFailed(group: string, cause: UsageReason)
    | NotEnoughArgs(option: string, count: nat)
    | MissingRequired(options: set<string>)
    | WrongParamCount(allowed: string)
    | NotBoolean(token: string)
    | NotInteger(token: string)

  datatype Error =
    | DefinitionError
    | UsageError(reason: UsageReason)
    | ArgumentError
    | IndexError

  datatype Result<+T> = Ok(value: T) | Err(error: Error) {
    predicate IsFailure() { Err? }

    function PropagateFailure<U>(): Result<U>
      requires Err?
    {
      Err(error)
    }

    function Extract(): T
      requires Ok?
    {
      value
    }
  }

  /** The outcome of an operation that returns nothing (a Java `void` method). */
  datatype Outcome = Pass | Fail(error: Error) {
    predicate IsFailure() { Fail? }

    function PropagateFailure(): Outcome
      requires Fail?
    {
      this
    }
  }

  function OutcomeOf<T>(r: Result<T>): Outcome {
    match r
    case Ok(_) => Pass
    case Err(e) => Fail(e)
  }
}
