/** Option and Result types shared by the model. A `Result` carries the text
    of the exception the Python code would raise on the error path. */
module Wrappers {

  datatype Option<+T> = None | Some(value: T)

  datatype Result<+T> = Ok(value: T) | Err(error: string)
}
