/**
  Values that cross the boundary between the item API binding and the
  JSON-RPC transport it calls: decoded JSON values, the errors the calls
  return, and the outcomes of one call.
 */
module Wire {

  datatype Option<+T> = None | Some(value: T)

  datatype Result<+T, +E> = Success(value: T) | Failure(error: E)

  newtype uint8 = x: int | 0 <= x < 0x100

  newtype int32 = x: int | -0x8000_0000 <= x < 0x8000_0000

  /** A decoded JSON value, as the JSON decoder hands it over in an `interface{}`. */
  datatype Value =
    | Null
    | Bool(b: bool)
    | Number(n: real)
    | Str(text: string)
    | Array(elems: seq<Value>)
    | Object(fields: map<string, Value>)

  /** The `error` member of a JSON-RPC 2.0 response object (section 5.1 of the JSON-RPC 2.0 specification). */
  datatype ApiError = ApiError(code: int, message: string, data: string)

  /** The errors an operation of the binding can return. */
  datatype Error =
    | Transport(message: string)           // the call itself failed
    | Remote(apiError: ApiError)           // the server answered with a JSON-RPC error
    | Decode(message: string)              // the reply bytes did not decode
    | ExpectedMore(requested: int, acknowledged: int)

  /** What a JSON-RPC call with error checking gives back: an error, or the `result` member. */
  datatype CallOutcome = Failed(error: Error) | Replied(result: Value)

  /**
    The end of an operation that returns only an `error`: `Ok` is a nil
    error, `Err` a non-nil one, and `Panic` a Go run-time panic (a failed
    type assertion or an index out of range) that unwinds out of it.
   */
  datatype Outcome = Ok | Err(error: Error) | Panic
}
