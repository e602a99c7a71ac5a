/** Optional values and Python-style outcomes. */
module Wrappers {

  datatype Option<+T> = None | Some(value: T)
  {
    function GetOr(default: T): T {
      match this case None => default case Some(v) => v
    }
  }

  /** The exceptions the modelled code can let escape to its caller. */
  datatype PyError =
    | AssertionError
    | AttributeError
    | IndexError
    | KeyError
    | NameError
    | TypeError
    | ValueError
    | ZeroDivisionError
    | MultipleResultsFound
    | IntegrityError
    | ServerError

  /** What a Python call does: return a value or raise. */
  datatype Result<+T> = Ok(value: T) | Raise(error: PyError)
}
