/** The host editor's value types that the extension's logic manipulates: URIs,
    file-system errors, stat records and change events. */
module Host {

  /** A URI broken into the components the extension inspects. */
  datatype Uri = Uri(scheme: string, authority: string, path: string, query: string)

  /** The file-system errors the extension's providers throw. */
  datatype FsError = FileNotFound | NoPermissions

  /** A file-system call either returns a value or throws one of the errors above. */
  datatype Result<+T> = Ok(value: T) | Err(error: FsError) {
    predicate IsFailure() {
      Err?
    }

    function PropagateFailure<U>(): Result<U>
      requires Err?
    {
      Err(error)
    }

    function Extract(): T
      requires Ok?
    {
      value
    }
  }

  datatype FileType = File | Directory

  /** What `stat` reports; timestamps are not part of the model. */
  datatype FileStat = FileStat(kind: FileType, size: nat)

  /** The kind of a file-change notification fired by a provider. */
  datatype ChangeType = Created | Changed | Deleted

  type Bytes = seq<bv8>
}
