/** Values shared by every component: optional values, results, the exception
    kinds the services raise, and time. */
module Common {

  /** A Java reference that may be null, or a `java.util.Optional`. */
  datatype Option<+T> = None | Some(value: T) {
    function GetOr(default: T): T {
      match this
      case Some(v) => v
      case None => default
    }
  }

  /** Why a `BookingNotFoundException` or an `UnavailableBookingException` was
      raised; the Java code tells them apart only by their message. */
  datatype Reason =
    | NoSuchBooking      // "Booking not found ..." / "Booking with id ... is not found"
    | OwnItem            // "Owner cannot book his own item"
    | NotItemOwner       // "Booker cannot set status to the booking"
    | NoRights           // "no rights for this booking"
    | EndBeforeStart     // "End date should be after the start date"
    | NotAvailable       // "Booking is not available"
    | AlreadyApproved    // "Status is already set APPROVED"
    | NoPastBooking      // "User cannot leave a comment without booking"

  /** The exception kinds of the services. `DivisionByZero` is the
      `ArithmeticException` of `from / size` with a zero size;
      `InvalidArgument` is the `IllegalArgumentException` `PageRequest.of`
      throws for a negative page or a size below one; `NoRowToDelete` is the
      `EmptyResultDataAccessException` of `deleteById` on an id no row has. */
  datatype Error =
    | UserNotFound
    | ItemNotFound
    | RequestNotFound
    | BookingNotFound(why: Reason)
    | UnavailableBooking(why: Reason)
    | ForbiddenAccess
    | DuplicateEmail
    | UnsupportedStatus
    | DivisionByZero
    | InvalidArgument
    | NoRowToDelete

  /** A method that returns normally with a value, or throws. */
  datatype Result<+R> = Success(value: R) | Failure(error: Error)

  /** A `LocalDateTime`, as a count of seconds. */
  type Time = int

  /** Seconds in a calendar day, for SQL's `CAST(... AS date)`. */
  const SecondsPerDay: int := 86400

  /** The calendar day of an instant (floor division, as the cast truncates
      towards the start of the day). */
  function Day(t: Time): int {
    t / SecondsPerDay
  }
}
