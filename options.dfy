/** The optional value used for the reader's next byte and for the history file. */
module Options {
  datatype Option<T> = None | Some(value: T)
}
