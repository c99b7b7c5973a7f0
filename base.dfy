/** Shared vocabulary: optional values, results, paths and the exceptions
    that the generator can raise. */
module Base {

  datatype Option<T> = None | Some(value: T) {
    /** Python's `dict.get(key, default)` once the lookup is done. */
    function GetOr(default: T): T {
      match this
      case Some(v) => v
      case None => default
    }
  }

  /** The exceptions the generator can raise: a missing mandatory key of a
      day record, and the operating-system errors that the abstract file
      tree can exhibit. */
  datatype Failure =
    | KeyError(key: string)
    | FileExistsError(path: Path)
    | NotADirectoryError(path: Path)
    | IsADirectoryError(path: Path)
    | FileNotFoundError(path: Path)

  datatype Result<T> = Ok(value: T) | Err(error: Failure)

  /** A path relative to the working directory, as its components:
      `days/day-01/README.md` is `["days", "day-01", "README.md"]`. */
  type Path = seq<string>
}
