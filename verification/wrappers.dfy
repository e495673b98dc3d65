/** Option and Result types shared by every module of the model. */
module Wrappers {

  datatype Option<+T> = None | Some(value: T)

  /**
   * The three kinds of failure the compiler produces:
   * - `Located`: a parse error carrying a character offset (the source's
   *   `CompilerError` and `CSSParseError`);
   * - `Message`: a plain error string (the `Err(String)` of the later passes);
   * - `Panic`: a point where the source panics (`unwrap` on `None`, an
   *   out-of-range slice, `assert!`, `panic!`, `todo!`) or overflows its stack.
   */
  datatype Error =
    | Located(position: nat, message: string)
    | Message(text: string)
    | Panic(reason: string)

  datatype Result<+T> = Ok(value: T) | Err(error: Error) {
    predicate IsFailure() { Err? }

    function PropagateFailure<U>(): Result<U>
      requires Err?
    {
      Err(error)
    }

    function Extract(): T
      requires Ok?
    {
      value
    }
  }
}
