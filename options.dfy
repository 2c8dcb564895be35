/** An optional value; `None` stands for the exception the Python code would raise. */
module Options {

  datatype Option<+T> = None | Some(value: T)
}
