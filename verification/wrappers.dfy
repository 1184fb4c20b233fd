/** Failure-carrying datatypes shared by every module of the model.
    The Python scripts signal failure by raising; the model returns a
    `Result` whose error names the exception the script would raise. */
module Wrappers {

  datatype Option<+T> = None | Some(value: T)

  datatype Result<+T> = Success(value: T) | Failure(error: Error)

  /** The exceptions the scripts can raise on the paths that are modelled. */
  datatype Error =
    | KeyError(key: string)           // `d[key]` on a dict without that key
    | IndexError                      // `xs[i]` past the end of a list
    | TypeError                       // subscripting `None`, `insert_many([])`
    | AssertionError(status: int)     // `assert response.status_code == 200`
    | ValueError                      // pandas: columns and index of different lengths
}
