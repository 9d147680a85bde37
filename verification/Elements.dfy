/** The element types the algorithms are generic in. */
module Elements {
  /** A classified element (an atomic concept); only equality is used. */
  type Element(==, !new)

  /** A named individual; only equality is used. */
  type Individual(==, !new)

  datatype Option<+T> = None | Some(value: T)
}
