/** A value that may be absent; `None` stands for a C# `null` reference. */
module Optional {
  datatype Option<T> = None | Some(value: T)
}
