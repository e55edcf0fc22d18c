/** What the session writes to its logger, as (level, tag) events instead of
    formatted text. The logger's handlers, formatting and file rotation are not
    part of this model. */
module Log {
  import opened Machines

  datatype Level = Info | Warning | Error | Exception

  /** An exception that reaches the top-level `except Exception` handler. */
  datatype Fault = InputEnded | InstallerNotFound

  /** One tag per distinct message the program logs. */
  datatype Tag =
    | LoggerReady
    | SessionStart
    | SessionEnd
    | EntryStarted
    | EntryFinished(count: nat)
    | EmptyValue
    | InvalidOs(raw: string)
    | NotAnInteger(raw: string)
    | OutOfRange(value: int, lo: int, hi: int)
    | EmptyMachineName
    | DuplicateName(name: string)
    | ConstructionFailed(error: ValidationError)
    | AddedVm(vm: Machine)
    | Saved(count: nat)
    | Provisioned(dict: Dict)
    | NothingToSave
    | InstallerMissing
    | InstallerRunning
    | InstallerOutput(message: string)
    | InstallerSucceeded
    | InstallerFailed(code: int)
    | UnexpectedError(fault: Fault)

  datatype Event = Event(level: Level, tag: Tag)
}
