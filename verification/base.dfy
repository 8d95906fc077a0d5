/** Shared vocabulary of the habit tracker: optional values, identifiers and the
    authentication oracle every server function consults first. */
module Base {

  /** A value that may be absent (`null`/`undefined` in the application). */
  datatype Option<+T> = None | Some(value: T)

  /** Document identifiers of the `users` and `habits` tables. */
  type UserId = nat
  type HabitId = nat

  /** The opaque session token the client sends with every call. */
  type SessionId = string

  /** `getAuthenticatedUser`: resolves a session token to the user it belongs
      to, or to nothing when the session is unknown or expired. Its own logic
      is not part of this model, so every operation takes it as a parameter. */
  type Auth = SessionId -> Option<UserId>

  /** The set of elements of a sequence (`new Set(xs)` in the application). */
  function Elements<T>(xs: seq<T>): set<T>
  {
    set x | x in xs
  }

  /** No element occurs twice. */
  predicate NoDuplicates<T(==)>(xs: seq<T>)
  {
    forall i, j :: 0 <= i < j < |xs| ==> xs[i] != xs[j]
  }
}
