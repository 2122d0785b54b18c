/** Optional values, results and the error kinds the two value objects raise. */
module Outcomes {

  datatype Option<+T> = None | Some(value: T)

  /** A value, or the exception the PHP code throws instead of returning it. */
  datatype Result<+T> = Ok(value: T) | Err(error: Error)

  /** The exceptions of the two classes; message texts and numeric codes are not modelled. */
  datatype Error =
    | WrongArgumentType(key: seq<char>, typeName: string)  // InvalidArgumentException from the body constructor
    | BodyClosed                                           // RuntimeException: body closed
    | BodyDetached                                         // RuntimeException: body detached
    | BodyNotWritable                                      // RuntimeException: body not writable
    | PlainRuntime                                         // RuntimeException without message (tell)
    | LengthNotPositive                                    // ValueError from fread for a length below 1
    | UriInvalidScheme
    | UriInvalidPort
    | UriInvalidPath
    | UriInvalidQuery
}
