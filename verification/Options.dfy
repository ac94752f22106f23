/** A value that may be absent: `std::optional` in C++, `None` in Python. */
module Options {
  datatype Option<+T> = None | Some(value: T)
}
