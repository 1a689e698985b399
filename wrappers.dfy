/** Option, the "maybe a value" type used for the source's `None` / `null` / `nullptr` returns. */
module Wrappers {

  datatype Option<+T> = None | Some(value: T)
}
