/** Small value types shared by the whole model: optional values and the
    outcome of a service call that may throw. */
module Basics {

  /** A value that may be absent (a C# null reference or an empty `Nullable`). */
  datatype Option<+T> = None | Some(value: T) {
    function GetOr(default: T): T {
      match this
      case Some(v) => v
      case None => default
    }
  }

  /** Why an `InvalidOperationException` was thrown. */
  datatype Reason =
    | RoomNotAvailable               // create or update: the room is blocked for the window
    | RoomNotAvailableForExtension   // extend-stay: the added nights are blocked
    | DuplicateEmail                 // guest create or update
    | DuplicateIdentification        // guest create or update
    | GuestHasActiveReservations     // guest delete

  /** The exceptions the modelled code throws on purpose. */
  datatype Exception =
    | InvalidOperation(reason: Reason)
    | KeyNotFound(id: int)

  /** The outcome of a call that either returns a value or throws; a thrown
      exception is distinct from a returned `false`. */
  datatype Outcome<+T> = Returned(value: T) | Threw(error: Exception)
}
