/** The guard in front of campaign creation: it lets a request through only
    when the requesting user's profile status is the "Completed" status. The
    request's user is the one the token guard attached, or none. */
module ProfileGuard {
  import opened Outcomes
  import opened UserEntity
  import opened StatusService
  import AuthService

  /** `canActivate` as written. Both lookups run before any check, and the
      user lookup dereferences the request's user, so a missing request user
      is a null dereference rather than the Forbidden the later check was
      meant to raise. A missing "Completed" status is NotFound; a missing
      user row, or a user whose status was never set, is dereferenced too;
      a different status is Forbidden. */
  function CanActivate(users: Users, statuses: Statuses, request: Option<UserId>)
    : (r: Result<bool>)
    ensures request.None? ==> r == Err(InternalServerError, NullReference)
    ensures request.Some? && FindByName(statuses, COMPLETED_STATUS).None? ==>
              r == Err(NotFound, StatusNotFound)
    ensures r.Ok? ==> r.value
    ensures r.Ok? <==>
              && request.Some? && request.value in users
              && FindByName(statuses, COMPLETED_STATUS).Some?
              && users[request.value].statusId == FindByName(statuses, COMPLETED_STATUS)
    ensures r == Err(Forbidden, ProfileNotCompleted) <==>
              && request.Some? && request.value in users
              && FindByName(statuses, COMPLETED_STATUS).Some?
              && users[request.value].statusId.Some?
              && users[request.value].statusId != FindByName(statuses, COMPLETED_STATUS)
  {
    match request
    case None => Err(InternalServerError, NullReference)
    case Some(id) =>
      match FindByName(statuses, COMPLETED_STATUS)
      case None => Err(NotFound, StatusNotFound)
      case Some(completed) =>
        if id !in users || users[id].statusId.None? then Err(InternalServerError, NullReference)
        else if users[id].statusId.value != completed then Err(Forbidden, ProfileNotCompleted)
        else Ok(true)
  }

  /** With status names unique, the guard admits exactly the users whose
      profile status row is named "Completed". */
  lemma GuardAdmitsCompletedProfiles(users: Users, statuses: Statuses, id: UserId)
    requires UniqueNames(statuses)
    ensures CanActivate(users, statuses, Some(id)).Ok? <==>
              && id in users && users[id].statusId.Some?
              && users[id].statusId.value in statuses
              && statuses[users[id].statusId.value].name == COMPLETED_STATUS
  {
    if id in users && users[id].statusId.Some? && users[id].statusId.value in statuses
       && statuses[users[id].statusId.value].name == COMPLETED_STATUS {
      var found := FindByName(statuses, COMPLETED_STATUS);
      assert found.Some?;
    }
  }

  /** A successful profile update opens the guard for that user. */
  lemma UpdateProfileOpensGuard(users: Users, statuses: Statuses, id: UserId,
                                firstName: string, lastName: string, now: int)
    requires UniqueNames(statuses)
    requires AuthService.UpdateProfile(users, statuses, id, firstName, lastName, now).result.Ok?
    ensures var after := AuthService.UpdateProfile(users, statuses, id, firstName, lastName, now).state;
            CanActivate(after, statuses, Some(id)) == Ok(true)
  {
    var after := AuthService.UpdateProfile(users, statuses, id, firstName, lastName, now).state;
    GuardAdmitsCompletedProfiles(after, statuses, id);
  }

  /** `canActivate` as evidently intended: a request without a user, or a
      user who never completed a profile, is refused as Forbidden instead of
      failing on a null dereference. */
  function CanActivateIntended(users: Users, statuses: Statuses, request: Option<UserId>)
    : (r: Result<bool>)
    ensures request.None? ==> r == Err(Forbidden, NotAuthorized)
    ensures request.Some? && request.value in users && users[request.value].statusId.None? ==>
              r.Err? && r.kind != InternalServerError
    ensures r.Ok? <==> CanActivate(users, statuses, request).Ok?
    ensures r.Ok? ==> r.value
  {
    match request
    case None => Err(Forbidden, NotAuthorized)
    case Some(id) =>
      match FindByName(statuses, COMPLETED_STATUS)
      case None => Err(NotFound, StatusNotFound)
      case Some(completed) =>
        if id !in users then Err(InternalServerError, NullReference)
        else if users[id].statusId != Some(completed) then Err(Forbidden, ProfileNotCompleted)
        else Ok(true)
  }

  /** As written, a user who has not yet updated their profile (a freshly
      registered one has no status) gets an internal error from the guard
      rather than the Forbidden answer telling them to update their profile;
      the intended guard gives that answer. */
  lemma IncompleteProfileIsNullReference(users: Users, statuses: Statuses, id: UserId)
    requires id in users && users[id].statusId.None?
    requires FindByName(statuses, COMPLETED_STATUS).Some?
    ensures CanActivate(users, statuses, Some(id)) == Err(InternalServerError, NullReference)
    ensures CanActivateIntended(users, statuses, Some(id)) == Err(Forbidden, ProfileNotCompleted)
  {
  }
}
