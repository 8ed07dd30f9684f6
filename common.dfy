/**
 * Failure-compatible wrappers and the error taxonomy shared by the decoder,
 * the tree assembler and the gas report.
 */
module Common {

  /** An optional value; `None` plays the part of Python's `None`. */
  datatype Option<+T> = None | Some(value: T)

  /** The value carried by `o`, or `default` when there is none. */
  function GetOr<T>(o: Option<T>, default: T): T
  {
    match o
    case Some(v) => v
    case None => default
  }

  /** Errors the decoder and the assembler can raise. */
  datatype Error =
    | BadHex(text: string)          // text that `int(v, 16)` rejects
    | NotText(n: int)               // a non-string given to `int(v, 16)`
    | UnknownKind(tag: string)      // a tag outside the CallType enumeration
    | EmptyTraceList                // no explicit root and no first record
    | MissingAttribute(name: string) // a field read on the wrong action/result variant

  /** A value or an error; usable with `:-`. */
  datatype Result<+T> = Success(value: T) | Failure(error: Error) {

    predicate IsFailure() {
      Failure?
    }

    function PropagateFailure<U>(): Result<U>
      requires Failure?
    {
      Failure(error)
    }

    function Extract(): T
      requires Success?
    {
      value
    }
  }
}
