/** Identifiers and the outcome of an operation, shared by every component. */
module Ids {
  datatype UserID = UserID(text: string)
  datatype DiscussionID = DiscussionID(text: string)
  datatype SlotID = SlotID(text: string)
  type LocationID = int
  type DayID = int

  datatype Option<+T> = None | Some(value: T)

  datatype Error =
    | Busy                  // SQLITE_BUSY or SQLITE_LOCKED: the attempt may be retried
    | ConstraintViolated    // a unique or foreign-key constraint refused a statement
    | NotFound              // no row for the given key
    | Invalid               // a parameter check failed
    | Refused               // the operation is not allowed in the current state
    | TooLong               // the retry loop ran out of time
    | Other                 // any other failure of the database

  datatype Outcome<+T> = Ok(value: T) | Err(error: Error)

  predicate NoDup<T(==)>(s: seq<T>) {
    forall i, j :: 0 <= i < j < |s| ==> s[i] != s[j]
  }
}
