/** Option and Result, and the Python exceptions the cleaning script can raise. */
module Wrappers {

  datatype Option<+T> = None | Some(value: T)

  datatype Result<+R, +E> = Success(value: R) | Failure(error: E)

  /** The exceptions the script lets escape: a missing attribute (`attrib['k']`),
      an item assignment into a string (`"..."[key] = v`) and an `append` on a
      string. The argument names the attribute or document field involved. */
  datatype PyError =
    | KeyError(key: string)
    | TypeError(field: string)
    | AttributeError(field: string)
}
