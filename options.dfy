/** An optional value: TypeScript's `T | undefined`. */
module Options {
  datatype Option<+T> = None | Some(value: T)
}
