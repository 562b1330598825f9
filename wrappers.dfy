/** Optional values and Python-style error results shared by every module. */
module Wrappers {

  datatype Option<+T> = None | Some(value: T)

  /** The Python exceptions the modelled code can raise (and that its callers see). */
  datatype PyError =
    | ValueError(reason: string)   // tuple unpacking with the wrong arity, `list.index` miss, empty `sample`
    | KeyError(key: string)        // dictionary lookup of a missing key
    | IndexError                   // list subscript out of range
    | AttributeError               // `.group()` called on the `None` of a failed `search`
    | TypeError                    // a string operation applied to a value that is not a string

  datatype Result<+T> = Ok(value: T) | Err(error: PyError)

  /**
   * Which reading of a passage whose code and evident intent disagree a
   * member follows: the code as it is written, or the corrected code.
   */
  datatype Reading = AsWritten | Intended
}
