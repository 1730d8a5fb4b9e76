/** Optional values, results and the errors the file-fixing pipeline can raise. */
module Types {

  /** The Python `X | None` of the command getters. */
  datatype Option<+T> = None | Some(value: T)

  /** A value, or the exception a Python call would have raised instead. */
  datatype Result<+T> = Ok(value: T) | Err(error: Error)

  datatype Error =
    /** `PurePath.with_name` refuses a name that is empty, contains a separator or is ".". */
    | InvalidName(name: string)
    /** `NotImplementedError` raised by a getter handed a file it cannot inspect. */
    | NotSupported(message: string)
    /** A failure reported by the audio or tag reader (corrupt header, unreadable file). */
    | ReadFailed(message: string)
    /** `str.format` refused a template (a field other than `count`, a bad format spec). */
    | FormatFailed(template: string)
    /** The bounded collision search gave up (see RegexReplace.Search). */
    | SearchExhausted(template: string)
}
