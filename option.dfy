// An optional value, shared by the paddle (an argument that may be left
// out) and the key stream (no key emitted yet).
module Optional {
  datatype Option<T> = None | Some(value: T)
}
