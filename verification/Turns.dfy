/** What others do to an object on the server during one poll of a client. */
module Turns {

  /** What happens to the object before the client reads it, and between that and the client's request. */
  datatype Turn<!S> = Turn(before: S -> S, between: S -> S)

  /** Nobody writes between the read and the request. */
  ghost predicate Undisturbed<S(!new)>(turn: Turn<S>) {
    forall s :: turn.between(s) == s
  }

  /** Nobody writes at all. */
  ghost predicate Alone<S(!new)>(turn: Turn<S>) {
    forall s :: turn.before(s) == s && turn.between(s) == s
  }
}
