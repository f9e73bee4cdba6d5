/** Go's nil pointers and `error` returns as values, and names shared by several modules. */
module Common {

  datatype Option<+T> = None | Some(value: T)

  datatype Result<+T, +E> = Ok(value: T) | Err(error: E)

  /** The value behind an optional string, Go's zero value if there is none. */
  function OrEmpty(s: Option<string>): string {
    match s case None => "" case Some(v) => v
  }

  datatype NamespacedName = NamespacedName(namespace: string, name: string)
}
