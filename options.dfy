/** The optional result of an operation that may decline, as Swift's `T?`. */
module Options {

  datatype Option<+T> = None | Some(value: T)

}
