/** The optional values the TypeScript `T | null` and the Rust `Option<T>` share. */
module Options {
  datatype Option<+T> = None | Some(value: T) {
    function GetOr(default: T): T {
      match this
      case Some(v) => v
      case None => default
    }
  }
}
