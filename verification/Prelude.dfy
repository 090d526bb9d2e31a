/** Datatypes shared by every module. */
module Prelude {
  /** A value the source may leave as None. */
  datatype Option<+T> = None | Some(value: T)
}
