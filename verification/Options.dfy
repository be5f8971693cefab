/** The optional value used wherever the program has a `std::optional` or a null pointer. */
module Options {
  datatype Option<+T> = None | Some(value: T)
}
