/** Failure values of the WIFF core.
    The source signals every failure with a Python exception; the model returns the
    exception's class as an `Error` inside a `Result` instead. */
module Errors {

  /** The exception classes the modelled code raises (directly, or through the
      Python runtime: `struct.error`, `ZeroDivisionError`, ...). */
  datatype Error =
    | ValueError
    | TypeError
    | KeyError
    | IndexError
    | AttributeError
    | NotImplemented
    | NeedResize          // util.NeedResizeException
    | StructError         // struct.error from pack/unpack
    | ZeroDivision
    | OverflowError       // int.to_bytes of a value that does not fit
    | UnicodeEncodeError  // str.encode('ascii') of a non-ASCII string
    | UnicodeDecodeError  // bytes.decode('utf8') of malformed UTF-8

  /** Either a value or the exception that replaced it. */
  datatype Result<+T> = Ok(value: T) | Err(error: Error) {
    predicate IsFailure() {
      Err?
    }

    function PropagateFailure<U>(): Result<U>
      requires Err?
    {
      Err(error)
    }

    function Extract(): T
      requires Ok?
    {
      value
    }
  }

  /** An optional argument (a keyword argument that may be absent). */
  datatype Option<+T> = None | Some(value: T)

  /** A step that either completes or raises. */
  datatype Outcome = Pass | Fail(error: Error) {
    predicate IsFailure() {
      Fail?
    }

    function PropagateFailure<U>(): Result<U>
      requires Fail?
    {
      Err(error)
    }
  }

  /** `Pass` when `cond` holds, otherwise `Fail(e)`. */
  function Need(cond: bool, e: Error): (r: Outcome)
  {
    if cond then Pass else Fail(e)
  }
}
