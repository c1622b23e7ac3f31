/** The optional value used across the model: an index that may be
    undefined, a key that may select no direction, a delay that may be null. */
module Options {
  datatype Option<T> = None | Some(value: T)
}
