/**
 * Small failure-carrying datatypes used by every handler of the login server,
 * and the client errors those handlers answer with.
 */
module Wrappers {

  datatype Option<+T> = None | Some(value: T) {
    /** The value, or `default` when absent (a JavaScript default parameter). */
    function GetOr(default: T): T {
      match this
      case Some(v) => v
      case None => default
    }
  }

  datatype Result<+R, +E> = Success(value: R) | Failure(error: E)

  datatype Outcome<+E> = Pass | Fail(error: E)

  /**
   * The error answers of the modelled handlers: the client errors, and the two
   * store failures that a constraint of the schema produces. The generic 500
   * "DB error" paths are not modelled.
   */
  datatype ApiError =
    | FriendIdRequired          // 400 "friendId required"
    | NoPendingRequest          // 400 "No pending request to accept"
    | HabitNotFound             // 404 "Habit not found"
    | HabitNameAndDateRequired  // 400 "habitName and date required"
    | HabitNameRequired         // 400 "habitName required"
    | AddHabitFailed            // 500 "Failed to add habit" (a NOT NULL or foreign key constraint failed)
    | CreatePillarFailed        // 500 "Failed to create pillar" (NOT NULL title violated)
    | DbError                   // 500 "DB error" (a foreign key constraint failed)

  /**
   * JavaScript's `!x` on an optional numeric request field: a missing value
   * and the number 0 are both falsy.
   */
  predicate Given(x: Option<int>) {
    x.Some? && x.value != 0
  }
}
