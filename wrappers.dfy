/** Option, Result and the Python exceptions the modelled code raises. */
module Wrappers {

  /** Python's `None` or a value. */
  datatype Option<+T> = None | Some(value: T) {
    function GetOr(default: T): T {
      match this
      case Some(v) => v
      case None => default
    }
  }

  /** The exceptions raised by the modelled code, each with the detail the source attaches to it. */
  datatype Error =
    | SystemError(message: string)
    | KeyError(key: Option<string>)
    | IndexError
    | ValueError(text: string)
    | TypeError
    | AttributeError(attribute: string)
    | NoOptionError(option: string)
    | TwitterException

  /** A value, or the exception that replaced it. */
  datatype Result<+T> = Ok(value: T) | Err(error: Error)
}
