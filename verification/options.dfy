/** The optional value the model uses wherever the source may produce nothing:
    a NULL column, a parse that throws, an input stream that runs dry. */
module Options {

  datatype Option<+T> = None | Some(value: T)
}
