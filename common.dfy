/** Values shared by every handler: record ids, optional values, the
    failures the handlers throw, and the caller's identity. */
module Common {

  /** A document id. The database hands them out in insertion order, so a
      smaller id always belongs to an older document. */
  type Id = nat

  datatype Option<+T> = None | Some(value: T)

  /** The failures a handler can end with. `Message` gives the exact text
      the handler throws. */
  datatype Error =
    | NotAuthenticated
    | TrackNotFound
    | CommentNotFound
    | Unauthorized
    | CannotSaveOwnTrack
    | TrackAlreadySaved
    | TrackNotSaved
    | NonexistentDocument  // raised by the database itself on patch/delete of a missing id
  {
    function Message(): string {
      match this
      case NotAuthenticated => "Not authenticated"
      case TrackNotFound => "Track not found"
      case CommentNotFound => "Comment not found"
      case Unauthorized => "Unauthorized"
      case CannotSaveOwnTrack => "You cannot save your own track"
      case TrackAlreadySaved => "Track already saved"
      case TrackNotSaved => "Track not saved"
      case NonexistentDocument => "Nonexistent document ID"
    }
  }

  /** Either the handler's return value or the error it throws. */
  datatype Result<+T> = Ok(value: T) | Err(error: Error)

  /** What the identity provider reports about the caller. */
  datatype Identity = Identity(subject: string, name: Option<string>, nickname: Option<string>)

  const UnknownUser: string := "Unknown User"

  /** JavaScript truthiness of an optional string: a missing value and the
      empty string are both falsy. */
  predicate Truthy(s: Option<string>) {
    s.Some? && s.value != ""
  }

  /** `identity?.name || identity?.nickname || "Unknown User"`: the first
      truthy of name and nickname, else the placeholder. */
  function DisplayName(caller: Option<Identity>): (r: string)
    ensures r != ""
    ensures caller.Some? && Truthy(caller.value.name) ==> r == caller.value.name.value
    ensures caller.Some? && !Truthy(caller.value.name) && Truthy(caller.value.nickname) ==>
              r == caller.value.nickname.value
    ensures caller.None? || (!Truthy(caller.value.name) && !Truthy(caller.value.nickname)) ==>
              r == UnknownUser
  {
    if caller.Some? && Truthy(caller.value.name) then caller.value.name.value
    else if caller.Some? && Truthy(caller.value.nickname) then caller.value.nickname.value
    else UnknownUser
  }
}
