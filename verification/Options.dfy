/** A value that may be absent: null, undefined, or a search without a result. */
module Options {
  datatype Option<+T> = None | Some(value: T)

  /** `a ?? b`. */
  function OrElse<T>(a: Option<T>, b: Option<T>): Option<T> {
    if a.Some? then a else b
  }
}
