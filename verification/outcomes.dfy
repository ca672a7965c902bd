/** Failure kinds raised by the deploy pipeline, and the Option/Result
    wrappers every fallible operation of the model returns.

    Each `Failure` constructor stands for one Python exception the pipeline
    script raises or lets through; the comment names the exception. */
module Outcomes {

  datatype Option<+T> = None | Some(value: T)

  datatype Failure =
    | NoSuchFile(path: string)                  // IOError/OSError: path does not exist
    | MalformedLine(line: string)               // ValueError: a record line without '='
    | BadInteger(text: string)                  // ValueError: int() of a non-number
    | MissingKey(key: string)                   // KeyError on the property record
    | LockdirMismatch(stored: string, dir: string)  // AssertionError in the record reader
    | PathExists(path: string)                  // OSError: the target directory is already there
    | LockHeld(path: string)                    // OSError: the lock is already held at the move target
    | MkdirError(path: string)                  // OSError from mkdir other than "file exists"
    | ZeroModulo                                // ZeroDivisionError from `% notify_sec`
    | LockTimeout                               // RuntimeError: timed out waiting on the holder
    | ReleaseFailed(cause: Failure)             // RuntimeError: could not release the lock
    | NotBackupPath(path: string)               // ValueError: relock of a path without ".last"
    | DeployFromMaster                          // ValueError: GIT_REVISION is "master"
    | RollbackFailed                            // RuntimeError: failed to roll back
    | UnknownAction(action: string)             // RuntimeError: unknown action
    | External(message: string)                 // whatever a collaborator (git, deploy tools) raised

  /** The text `str(why)` the dispatcher stores in LAST_ERROR. Collaborator
      messages are kept verbatim; the pipeline's own exceptions get the
      text Python 2 gives them. Two are approximations: the errno and
      strerror of a failed `mkdir` are not modelled, so MkdirError says
      only which path failed; and `os.rename` reports a missing source
      without its path, which NoSuchFile always includes. */
  function Message(f: Failure): string
  {
    match f
    case NoSuchFile(p) => "[Errno 2] No such file or directory: '" + p + "'"
    case MalformedLine(l) => "need more than 1 value to unpack"
    case BadInteger(t) => "invalid literal for int() with base 10: '" + t + "'"
    case MissingKey(k) => "'" + k + "'"
    case LockdirMismatch(s, d) => "('" + s + "', '" + d + "')"
    case PathExists(p) => p + " already exists"
    case LockHeld(p) => "Lock already held in \"" + p + "\""
    case MkdirError(p) => "Could not create " + p
    case ZeroModulo => "integer division or modulo by zero"
    case LockTimeout => "Timed out waiting on the current lock-holder."
    case ReleaseFailed(c) => "Could not release the deploy-lock (" + Message(c) + ")"
    case NotBackupPath(p) => "lockdir \"" + p + "\" does not end with \".last\""
    case DeployFromMaster => "You must deploy from a branch, you can't deploy from master"
    case RollbackFailed => "Failed to roll back to the previous deploy."
    case UnknownAction(a) => "Unknown action '" + a + "'"
    case External(m) => m
  }

  datatype Result<+T> = Ok(value: T) | Err(failure: Failure) {

    predicate IsFailure() {
      Err?
    }

    function PropagateFailure<U>(): Result<U>
      requires Err?
    {
      Err(failure)
    }

    function Extract(): T
      requires Ok?
    {
      value
    }
  }
}
