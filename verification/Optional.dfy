/** A value or none, as std::optional and Python's None. */
module Optional {
  datatype Option<+T> = None | Some(value: T)
}
