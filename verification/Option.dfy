/** The conventional Some/None datatype, standing for the source's `None` and SQL's NULL. */
module Options {
  datatype Option<+T> = None | Some(value: T)

  /** SQL equality: a comparison with NULL is never true. */
  predicate SqlEq<T(==)>(a: Option<T>, b: Option<T>) {
    a.Some? && b.Some? && a.value == b.value
  }
}
