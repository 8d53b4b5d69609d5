/** Optional values and results with an error message, used wherever the
    Python code either skips an unparsable item or raises an exception. */
module Maybe {

  datatype Option<+T> = None | Some(value: T)

  /** `Err` stands for an exception the Python code raises and does not catch. */
  datatype Result<+T> = Ok(value: T) | Err(msg: string)
}
