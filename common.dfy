/** Values shared by every screen: an optional value and the outcome of an event handler. */
module Common {

  datatype Option<+T> = None | Some(value: T)

  /** The exceptions that can escape a handler. The `with get_connection()` block then
      rolls the open transaction back, so nothing the handler started is kept. */
  datatype Exception = ValueError | TypeError | IntegrityError

  /** Why a handler showed a notice instead of writing. */
  datatype Reason =
    | MissingField      // a required form field is empty
    | NotAnInteger      // int() of a field failed and the handler caught it
    | NotANumber        // float() (or, for products, float() or int()) failed and was caught
    | UnknownDepartment // the department lookup found no row
    | NothingSelected   // the handler needs a selected row and says so
    | PermissionDenied  // the caller is not an administrator
    | Duplicate         // the database reported a UNIQUE violation and the handler caught it

  /** What one event handler did. */
  datatype Outcome =
    | Saved                     // the statements ran and were committed
    | Skipped                   // the handler returned silently without touching the database
    | Refused(reason: Reason)   // a notice was shown; the database is unchanged
    | Crashed(error: Exception) // an exception escaped; the database is unchanged

  /** The form checks a handler runs before writing: the row to write, or the outcome of
      the check that stopped it. */
  datatype Checked<T> = Accepted(data: T) | Rejected(outcome: Outcome)

  /** Python truthiness of a selected id: `None` and `0` are false. */
  predicate Truthy(sel: Option<int>) {
    sel.Some? && sel.value != 0
  }
}
