/** Option: the source's `Optional[...]`, used for nullable columns and fields. */
module Wrappers {

  datatype Option<+T> = None | Some(value: T)

}
