/** Values that stand for Python's `None` and for a call that may raise. */
module Results {

  /** An optional value: an environment variable that may be unset. */
  datatype Option<T> = None | Some(value: T)

  /** The outcome of a call into a collaborator: it returns a value or raises an
      exception, whose message (`str(e)`) is kept in `error`. */
  datatype Result<T> = Ok(value: T) | Err(error: string)
}
