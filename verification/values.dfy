/** Small value types shared by the storage model. */
module Values {

  /** A value that may be absent: JavaScript's `undefined` is `None`. */
  datatype Option<+T> = None | Some(value: T)

  /** The settled value of a promise-like computation that may fail. */
  datatype Result<+T, +E> = Ok(value: T) | Err(error: E)

  newtype byte = b: int | 0 <= b < 256

  type Bytes = seq<byte>

  /** An error object raised by a host library call (fs-extra, zip); only its code is kept. */
  datatype Fault = Fault(code: string)

  /** JavaScript truthiness of a value that is either a string or `undefined`. */
  predicate Truthy(v: Option<string>)
  {
    v.Some? && v.value != ""
  }
}

/** The configuration record the store reads (`config.paths`). */
module Settings {
  import opened Values

  /**
   * `paths` holds the per-type keys `<type>Path` (a base directory) and
   * `<type>RelPath` (the URL prefix for that type), as well as `imagesPath`.
   * `subdir` is the URL mount prefix and `themePath` the directory holding themes.
   */
  datatype Config = Config(paths: map<string, string>, subdir: string, themePath: string)

  /** Property access `config.paths[key]`: `undefined` when the key is not set. */
  function Lookup(paths: map<string, string>, key: string): Option<string>
  {
    if key in paths then Some(paths[key]) else None
  }
}
