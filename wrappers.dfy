/** Option and Result types shared by the whole model, and the errors the
    converter can raise.  `Result` is failure-compatible, so methods can use `:-`. */
module Wrappers {

  datatype Option<+T> = None | Some(value: T)

  /** The ways a conversion step can fail. */
  datatype Error =
    | MalformedLine(line: string)     // a column-file line without the ". " separator
    | BadIndex(line: string)          // the text before ". " is not a column number
    | DuplicateIndex(index: nat)      // two column-file lines carry the same number
    | MissingName(index: nat)         // the selector met a column whose name is undefined (NaN)
    | MissingColumn(column: string)   // a dataset lacks a column the step reads
    | EmptyColumn(column: string)     // a minimum or maximum over no rows

  datatype Result<+T> = Ok(value: T) | Err(error: Error) {
    predicate IsFailure() { Err? }

    function PropagateFailure<U>(): Result<U>
      requires Err?
    {
      Err(error)
    }

    function Extract(): T
      requires Ok?
    {
      value
    }
  }
}
