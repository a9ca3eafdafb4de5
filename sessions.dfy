/** The server-side HTTP session, reduced to its `userId` attribute. A request
    without a session and a session without the attribute look the same to
    every handler, so both are `None`. */
module Sessions {
  import opened Wrappers
  import opened Entities

  class Session {
    var userId: Option<Id>

    constructor (userId: Option<Id>)
      ensures this.userId == userId
    {
      this.userId := userId;
    }
  }

  /** The session guard every protected handler runs first
      (`getUserIdOrThrow`, `requireSessionUserId`): Unauthorized without a
      user id, the id otherwise. */
  function RequireUserId(userId: Option<Id>): (r: Result<Id>)
    ensures r.Ok? <==> userId.Some?
    ensures r.Ok? ==> r.value == userId.value
    ensures r.Err? ==> r.status == Unauthorized
  {
    if userId.None? then Err(Unauthorized) else Ok(userId.value)
  }
}
