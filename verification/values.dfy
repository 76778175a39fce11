/** Python-level values that cross the record store's interface. */
module Values {

  /** A Python argument that may be `None`. */
  datatype Option<T> = None | Some(value: T)

  /** Python truthiness of an optional string: it is neither `None` nor `""`. */
  predicate Truthy(o: Option<string>) {
    o.Some? && o.value != ""
  }

  /** One entry of the parameter tuple bound to a statement's `?` placeholders. */
  datatype Param = Text(text: string) | Int(n: int)
}
