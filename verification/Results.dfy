/** The outcomes of operations that the C++ code lets throw. */
module Results {

  /** One constructor per throw site of JsonParser and std::stoull. The position that the messages
      quote is not kept. */
  datatype Error =
    | Expected(what: char)
    | UnexpectedEnd
    | InvalidEscape
    | UnterminatedString
    | ExpectedBool
    | InvalidNumber
    | NumberOutOfRange

  datatype Option<+T> = None | Some(value: T)

  /** What a throwing method returns. */
  datatype Result<+T> = Success(value: T) | Failure(error: Error) {
    predicate IsFailure() {
      Failure?
    }

    function PropagateFailure<U>(): Result<U>
      requires Failure?
    {
      Failure(error)
    }

    function Extract(): T
      requires Success?
    {
      value
    }

    /** The given value once this has succeeded. */
    function Then<U>(u: U): Result<U> {
      match this
      case Success(_) => Success(u)
      case Failure(e) => Failure(e)
    }
  }

  /** What a parsing function makes of the unread part of a text: a value and the text left over. */
  datatype Parsed<+T> = Ok(value: T, rest: string) | Err(error: Error) {
    predicate IsFailure() {
      Err?
    }

    function PropagateFailure<U>(): Parsed<U>
      requires Err?
    {
      Err(error)
    }

    function Extract(): (T, string)
      requires Ok?
    {
      (value, rest)
    }

    /** The parse without its leftover. */
    function Outcome(): Result<T> {
      match this
      case Ok(v, _) => Success(v)
      case Err(e) => Failure(e)
    }
  }

  /** The parse that yields the given outcome and leaves the given text unread. */
  function Leaving<T>(r: Result<T>, rest: string): Parsed<T> {
    match r
    case Success(v) => Ok(v, rest)
    case Failure(e) => Err(e)
  }
}
