/** Python's `None`-or-value results, as an explicit datatype. */
module Options {

  datatype Option<+T> = None | Some(value: T)

  /** Python's `a or b` on two optional values: `a` when it is present, `b` otherwise. */
  function Or<T>(a: Option<T>, b: Option<T>): Option<T>
  {
    if a.Some? then a else b
  }
}
