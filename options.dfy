/** The nullable values of the components (`number | null`, `string | null`, `DOMRect | null`). */
module Options {

  datatype Option<+T> = None | Some(value: T) {

    /** TypeScript's `x ?? default`. */
    function GetOr(default: T): T {
      match this
      case Some(v) => v
      case None => default
    }
  }
}
