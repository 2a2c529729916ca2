/** What the storage engine reports back to the stores, and the optional
    value its single-row queries produce. */
module Storage {

  /** The outcome of sqlite3_step on a write statement (INSERT or
      DELETE): SQLITE_DONE, SQLITE_BUSY, or any other failure code. The
      stores take it as an input, since whether the write lock can be had
      is decided outside the program. */
  datatype StepResult = StepDone | StepBusy | StepFailed

  /** A row a query may or may not return. */
  datatype Option<T> = None | Some(value: T)
}
