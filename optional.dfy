/** The optional value that Rust writes as `Option<T>`. */
module Optional {
  datatype Option<+T> = None | Some(value: T)
}
