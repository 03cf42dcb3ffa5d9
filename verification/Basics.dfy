/** Shared by the models of the analysis engine. */
module Basics {
  datatype Option<+T> = None | Some(value: T)
}
