/** An optional value, for readers that may reject their input. */
module Optional {
  datatype Option<+T> = None | Some(value: T)
}
