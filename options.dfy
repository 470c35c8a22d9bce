/** An optional value: what C signals with a NULL pointer or a failure
    flag. */
module Options {
  datatype Option<T> = None | Some(value: T)
}
