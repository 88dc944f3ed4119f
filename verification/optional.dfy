/** The value-or-nothing type used where the script would raise instead of returning. */
module Optional {
  datatype Option<T> = None | Some(value: T)
}
