/** An optional value: a query parameter that is present (Some) or undefined (None). */
module Wrappers {

  datatype Option<+T> = None | Some(value: T)
}
