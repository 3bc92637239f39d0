/** An optional value, for absent query parameters and failed parses. */
module Options {
  datatype Option<+T> = None | Some(value: T)
}
