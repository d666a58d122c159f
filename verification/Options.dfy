/** The absent-or-present values that the TypeScript code writes as `T | null` or `T | undefined`. */
module Options {
  datatype Option<+T> = None | Some(value: T)
}
