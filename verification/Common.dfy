/** Datatypes shared by the other modules. */
module Common {

  datatype Option<+T> = None | Some(value: T)

  datatype Result<+T, +E> = Ok(value: T) | Err(error: E)

  /** The id of a JSON-RPC request, chosen by the side that sends it. */
  datatype RequestId = StringId(string) | IntegerId(int)
}
