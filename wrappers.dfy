/** Option and a single-failure Result, as used by the lexer and the parser. */
module Wrappers {
  datatype Option<+T> = None | Some(value: T)

  /** The parser reports one kind of failure; its message text is not modelled. */
  datatype Result<+T> = Ok(value: T) | Err
}
