/** Values shared by the crawler, the corpus preprocessing, the loader and the
    script-side validator. */
module Records {

  datatype Option<T> = None | Some(value: T)

  /** A value, or the exception the source raises instead. */
  datatype Result<T> = Ok(value: T) | Err(error: string)

  /** A date after parsing (`datetime.fromisoformat`, `dateutil.parser.parse`):
      only its order matters, so an instant on a time line. */
  type Timestamp = int
}
