/** An optional value: stands for a C# reference that may be null. */
module Wrappers {
  datatype Option<T> = None | Some(value: T)
}
