// Option and Result values shared by every module of the model.
// A Python exception or a JavaScript `throw` in the modelled code becomes an
// `Err` carrying a module-specific error value.
module Wrappers {
  datatype Option<T> = None | Some(value: T)

  datatype Result<T, E> = Ok(value: T) | Err(error: E)
}
