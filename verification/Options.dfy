/** A nullable column or an optional argument of the modelled system. */
module Options {
  datatype Option<+T> = None | Some(value: T)
}
