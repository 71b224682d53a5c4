/** Small value types shared by every part of the user-service model. */
module Common {

  /** A value that may be absent (a nullable reference or an empty `Optional`). */
  datatype Option<T> = None | Some(value: T)

  /** Identifier the store assigns to a user on its first save (a `Long` in the service). */
  type UserId = int

  /** A wall-clock reading. The model never inspects it: it only records which
      instant was taken and checks that later operations leave it alone. */
  datatype Instant = Instant(ticks: int)
}
