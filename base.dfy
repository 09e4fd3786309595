/** Small shared definitions. */
module Base {

  /** An optional value: `None` stands for the source's `null` / `undefined`. */
  datatype Option<T> = None | Some(value: T)

  function Min(a: int, b: int): int { if a <= b then a else b }
}
