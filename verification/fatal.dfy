/** The tool's fatal exits. Every `error_handler` call and the destination
    check end the process with status 1 and leave what was written so far on
    disk. Each `error_handler` call becomes an `Abort` that carries its
    reason and the file system as it was at that moment; the destination
    check, made before any of them, becomes a `Failed` exit of `Run`. */
module Fatal {
  import opened FileSystem

  datatype Failure =
    | DestinationMissing(destination: string)
    | NamespaceQueryFailed
    | NoDefaultNamespace
    | DirectoryExists(path: Path)
    | DirectoryCreateFailed(path: Path)
    | FileCreateFailed(path: Path)
    | FileWriteFailed(path: Path)
    | ApiResourcesFailed
    | ResourceGetFailed(kind: string)

  /** Either the run goes on with a value, or it stops with a failure and
      the partial state it leaves behind. */
  datatype Res<+T> = Proceed(value: T) | Abort(failure: Failure, fs: Fs) {

    predicate IsFailure() {
      Abort?
    }

    function PropagateFailure<U>(): Res<U>
      requires Abort?
    {
      Abort(failure, fs)
    }

    function Extract(): T
      requires Proceed?
    {
      value
    }
  }

  /** A system call whose failure is fatal with reason `failure`; `fs` is the
      state the call was made in. */
  function Must(io: Io, failure: Failure, fs: Fs): Res<Fs> {
    match io
    case Done(fs') => Proceed(fs')
    case IoFailed => Abort(failure, fs)
  }
}
