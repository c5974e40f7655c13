/** The conventional optional value, standing in for JavaScript's `undefined`/`null`. */
module Options {
  datatype Option<+T> = None | Some(value: T)
}
