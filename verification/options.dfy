/** An optional value: a field of the script's rows that may be unset. */
module Options {
  datatype Option<T> = None | Some(value: T)
}
