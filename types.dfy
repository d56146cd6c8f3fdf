/**
 Value types shared by the collaborator-heads widget: the live user record
 read from the session state, and the small wrappers the model uses for
 values that may be missing (`null` / `undefined`) or operations that may fail.
 */
module Types {

  /** A value that may be absent: `undefined` from `Array.find`, or a `null` id. */
  datatype Option<+T> = None | Some(value: T)

  /** The outcome of an operation that can throw. */
  datatype Result<+T, +E> = Ok(value: T) | Err(error: E)

  /** A participant of the live session, as stored in the room info. */
  datatype LiveUser = LiveUser(id: string, username: string, avatarUrl: string, color: seq<int>)

  /**
   JavaScript's `x === id` where `x` is a `string | null` taken from the
   session state: `null` is never strictly equal to a string.
   */
  predicate IdEquals(x: Option<string>, id: string)
  {
    x == Some(id)
  }
}
