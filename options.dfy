/** An optional value: JavaScript's `undefined`/`null`, or a value that is present. */
module Options {
  datatype Option<+T> = None | Some(value: T)
}
