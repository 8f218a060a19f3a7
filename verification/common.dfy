/** Shared vocabulary of the model: optional values, identifiers and timestamps. */
module Common {

  /** A value that may be absent: a missing document field, a failed lookup, a null reference. */
  datatype Option<+T> = None | Some(value: T)

  /** Server-assigned timestamps are opaque; the model only needs them to be ordered values. */
  type Timestamp = nat

  /** Sessions are never deleted, so a session is identified by its position in the store. */
  type SessionId = nat

  /** The signed-in admin whose identity is stamped on a new session. */
  datatype User = User(uid: string, email: string)
}
