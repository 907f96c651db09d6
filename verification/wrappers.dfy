/** The optional value used for PHP's nullable results (`null` or a value). */
module Wrappers {

  datatype Option<+T> = None | Some(value: T)
}
