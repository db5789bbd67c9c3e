// The exceptions the reader raises and the two-variant Result type it uses to
// carry either a value or an exception. A Java operation that returns a value
// or throws is modelled as a function returning Result<T>: Ok for the value,
// Err for the thrown exception.

module Results {

  datatype Option<T> = None | Some(value: T)

  /** The exceptions raised by the modelled code; messages keep their fixed part. */
  datatype Exception =
    | FormatError(message: string)       // FormatException
    | NotImplemented(message: string)    // NotImplementedFeatureException
    | EndOfInput                         // reading past the end of the input
    | ClosedChannel                      // ClosedChannelException
    | IoError(message: string)           // any other IOException of a source
    | IllegalArgument(message: string)   // IllegalArgumentException
    | IndexOutOfBounds                   // IndexOutOfBoundsException
    | Arithmetic(message: string)        // ArithmeticException
    | IllegalState(message: string)      // IllegalStateException
    | NoSuchElement(message: string)     // NoSuchElementException
    | NullPointer                        // NullPointerException
    | NegativeArraySize                  // NegativeArraySizeException
    | BufferUnderflow                    // BufferUnderflowException
    | Wrapped(cause: Exception)          // new RuntimeException(cause)
  {
    /** FormatException and NotImplementedFeatureException are ParseExceptions, hence IOExceptions. */
    predicate IsIoException() {
      FormatError? || NotImplemented? || EndOfInput? || ClosedChannel? || IoError?
    }
  }

  datatype Result<T> = Ok(value: T) | Err(error: Exception)
  {
    predicate IsOk() {
      Ok?
    }

    /** isOk and isErr are complementary in both variants. */
    predicate IsErr()
      ensures IsErr() <==> !IsOk()
    {
      Err?
    }

    /** get returns the value, or throws the error itself, unwrapped. */
    function Get(): (r: Result<T>)
      ensures IsOk() ==> r == Ok(value)
      ensures IsErr() ==> r == Err(error)
    {
      match this
      case Ok(v) => Ok(v)
      case Err(e) => Err(e)
    }

    /** unwrap returns the value, or throws a RuntimeException wrapping the error. */
    function Unwrap(): (r: Result<T>)
      ensures IsOk() ==> r == Ok(value)
      ensures IsErr() ==> r.Err? && r.error.Wrapped? && r.error.cause == error
      ensures IsErr() ==> !r.error.IsIoException()
    {
      match this
      case Ok(v) => Ok(v)
      case Err(e) => Err(Wrapped(e))
    }

    /** getOr: the value on Ok, the default on Err. */
    function GetOr(defaultValue: T): (r: T)
      ensures IsOk() ==> r == value
      ensures IsErr() ==> r == defaultValue
    {
      match this
      case Ok(v) => v
      case Err(_) => defaultValue
    }

    /** getOrElse: the value on Ok; on Err the supplier is called. */
    function GetOrElse(f: () -> T): (r: T)
      ensures IsOk() ==> r == value
      ensures IsErr() ==> r == f()
    {
      match this
      case Ok(v) => v
      case Err(_) => f()
    }

    function Map<U>(f: T -> U): (r: Result<U>)
      ensures r.IsOk() <==> IsOk()
      ensures IsOk() ==> r.value == f(value)
      ensures IsErr() ==> r.error == error
    {
      match this
      case Ok(v) => Ok(f(v))
      case Err(e) => Err(e)
    }

    function MapErr(f: Exception -> Exception): (r: Result<T>)
      ensures r.IsOk() <==> IsOk()
      ensures IsOk() ==> r == this
      ensures IsErr() ==> r.error == f(error)
    {
      match this
      case Ok(v) => Ok(v)
      case Err(e) => Err(f(e))
    }

    predicate IsFailure() {
      Err?
    }

    function PropagateFailure<U>(): Result<U>
      requires Err?
    {
      Err(error)
    }

    function Extract(): T
      requires Ok?
    {
      value
    }
  }

  /** new Err(value): a null exception is rejected with a NullPointerException. */
  function NewErr<T>(value: Option<Exception>): (r: Result<Result<T>>)
    ensures value.None? <==> r == Err(NullPointer)
    ensures value.Some? ==> r == Ok(Err(value.value))
  {
    match value
    case None => Err(NullPointer)
    case Some(e) => Ok(Err(e))
  }

  /**
   * tryIo(f), where f's outcome is given: a value becomes Ok, an IOException
   * becomes Err, and any other exception propagates out of tryIo itself.
   */
  function TryIo<T>(outcome: Result<T>): (r: Result<Result<T>>)
    ensures r.Ok? <==> (outcome.Ok? || outcome.error.IsIoException())
    ensures r.Ok? ==> r.value == outcome
    ensures r.Err? ==> r.error == outcome.error
  {
    match outcome
    case Ok(v) => Ok(Ok(v))
    case Err(e) => if e.IsIoException() then Ok(Err(e)) else Err(e)
  }

  /** map is a functor: it keeps identity and composes. */
  lemma {:induction false} MapComposes<T, U, V>(r: Result<T>, f: T -> U, g: U -> V)
    ensures r.Map(f).Map(g) == r.Map(x => g(f(x)))
    ensures r.Map(x => x) == r
  {
  }

  /** getOr commutes with map when the default is mapped too. */
  lemma {:induction false} GetOrAfterMap<T, U>(r: Result<T>, f: T -> U, d: T)
    ensures r.Map(f).GetOr(f(d)) == f(r.GetOr(d))
  {
  }

  /** map and mapErr act on different variants and so commute. */
  lemma {:induction false} MapMapErrCommute<T, U>(r: Result<T>, f: T -> U, g: Exception -> Exception)
    ensures r.Map(f).MapErr(g) == r.MapErr(g).Map(f)
  {
  }

  /** get and unwrap agree on Ok; on Err unwrap throws get's exception wrapped in a RuntimeException. */
  lemma {:induction false} UnwrapWrapsGet<T>(r: Result<T>)
    ensures r.Unwrap() == r.Get().MapErr(e => Wrapped(e))
    ensures r.Get() == r
  {
  }
}
