/** Optional values and fallible results, as the installer's Rust code uses them. */
module Results {

  /** Rust's `Option<T>`. */
  datatype Option<+T> = None | Some(value: T)

  /** Rust's `Result<T, E>`: the `?` operator propagates an `Err`. */
  datatype Result<+T, +E> = Ok(value: T) | Err(error: E)
}
