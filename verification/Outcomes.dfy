/** Values that may be absent, calls that may fail, and files that may not be replaced. */
module Outcomes {

  datatype Option<+T> = None | Some(value: T)

  datatype Result<+T, +E> = Ok(value: T) | Err(error: E)

  /** How replacing a file ended: installed; installed, but reported as failed because the directory could not
      be synchronized; or failed with the old file left in place. */
  datatype WriteOutcome = Installed | InstalledUncertain | NotInstalled
}
