/** The optional value used wherever the Rust code returns an `Option` or would panic
    on an `unwrap` of data that arises while the program runs. */
module Options {
  datatype Option<+T> = None | Some(value: T)
}
