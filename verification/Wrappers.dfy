/** Error values shared by the storage modules (src/error.rs groups errors the same way). */
module Wrappers {

  datatype Error = InvalidInput | InvalidData | NotFound | UnexpectedEof | Interrupted | IoFault

  datatype Option<+T> = None | Some(value: T)

  datatype Result<+T> = Ok(value: T) | Err(error: Error) {
    predicate IsFailure() {
      Err?
    }

    function PropagateFailure<U>(): Result<U>
      requires Err?
    {
      Err(error)
    }

    function Extract(): T
      requires Ok?
    {
      value
    }
  }

  /** `text.trim().is_empty()`, for the ASCII white space characters. */
  predicate Blank(text: string) {
    forall i :: 0 <= i < |text| ==> text[i] in {' ', '\t', '\n', '\r'}
  }
}
