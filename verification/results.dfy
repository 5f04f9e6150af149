/** Optional values, results, and the exceptions the add-on raises. */
module Results {

  /** A value that may be absent: a Python `None`, or a key missing from a dict. */
  datatype Option<+T> = None | Some(value: T) {

    /** The value, or `default` when absent (Python's `dict.get(key, default)`). */
    function GetOr(default: T): T {
      match this
      case Some(v) => v
      case None => default
    }
  }

  /** One constructor per place where the modelled code raises (or lets escape) an exception. */
  datatype Error =
      /** `Warning`: the molecule positions folder does not exist. */
    | FolderNotFound(path: string)
      /** Any other `OSError` from listing the folder; it is not caught. */
    | FolderUnreadable(path: string)
      /** `ValueError` from `min()` of an empty list: no file of the folder is a snapshot. */
    | NoSnapshots
      /** `Warning`: the snapshot file of the current step cannot be opened. */
    | SnapshotUnreadable(path: string)
      /** `KeyError`: a CSV row has no such column. */
    | MissingColumn(column: string)
      /** `ValueError`: a CSV row has no column named after a configured attribute. */
    | MissingAttributeColumn(attribute: string)
      /** `ValueError` from `int()` or `float()` on the text of a column. */
    | NotANumber(column: string)
      /** `Warning`: removing an unused mesh raised an exception. */
    | MeshNotDeleted(mesh: nat)

  /** The outcome of a computation that may raise. */
  datatype Result<+T> = Ok(value: T) | Err(error: Error) {

    predicate IsFailure() {
      Err?
    }

    function PropagateFailure<U>(): Result<U>
      requires Err?
    {
      Err(error)
    }

    function Extract(): T
      requires Ok?
    {
      value
    }
  }
}
