/** Addresses of heap objects, and optional values. */
module Pointers {
  type Ptr = nat
  const NULL: Ptr := 0

  datatype Option<T> = None | Some(value: T)
}
