/** The campaign-status taxonomy: named status rows whose `name` column is
    unique, and the four operations of its service. Every operation first
    checks that the requesting user still exists. */
module StatusService {
  import opened Outcomes
  import opened UserEntity
  import Tables

  datatype Status = Status(name: string)

  type Statuses = map<StatusId, Status>

  /** Status names the services look up or assign. The enumeration declaring
      them is not part of this model; its member names are used as the
      stored names. */
  const DRAFT_STATUS: string := "Draft"
  const RUNNING_STATUS: string := "Running"
  const COMPLETED_STATUS: string := "Completed"
  const INACTIVE_STATUS: string := "Inactive"
  const PENDING_STATUS: string := "Pending"
  const SUCCESS_STATUS: string := "Success"
  const PAID_STATUS: string := "Paid"

  /** The unique constraint on `name`. */
  ghost predicate UniqueNames(statuses: Statuses)
  {
    forall a, b :: a in statuses && b in statuses && statuses[a].name == statuses[b].name ==> a == b
  }

  /** `findOne({ where: { name } })`. */
  function FindByName(statuses: Statuses, name: string): (r: Option<StatusId>)
    ensures r.Some? ==> r.value in statuses && statuses[r.value].name == name
    ensures r.None? <==> forall id :: id in statuses ==> statuses[id].name != name
  {
    Tables.FindKey(statuses, (s: Status) => s.name == name)
  }

  /** A JavaScript string is truthy exactly when it is present and non-empty. */
  predicate Truthy(s: Option<string>)
  {
    s.Some? && s.value != ""
  }

  /** The status a new row is given: the requested one, which must exist, or
      `fallback` when the request names none, which must exist too. */
  function StatusFor(statuses: Statuses, requested: Option<string>, fallback: string)
    : (r: Result<StatusId>)
    ensures Truthy(requested) && FindByName(statuses, requested.value).None? ==>
              r == Internal(StatusDoesNotExist(requested.value))
    ensures !Truthy(requested) && FindByName(statuses, fallback).None? ==>
              r == Internal(DefaultStatusNotFound)
    ensures r.Ok? <==> FindByName(statuses, if Truthy(requested) then requested.value else fallback).Some?
    ensures r.Ok? ==>
              && r.value in statuses
              && statuses[r.value].name == (if Truthy(requested) then requested.value else fallback)
  {
    var wanted := if Truthy(requested) then requested.value else fallback;
    match FindByName(statuses, wanted)
    case None => if Truthy(requested) then Internal(StatusDoesNotExist(wanted)) else Internal(DefaultStatusNotFound)
    case Some(sid) => Ok(sid)
  }

  /** `createStatus`: a missing requester or a taken name fails with nothing
      written; otherwise exactly one row carrying the given name is added,
      and names stay unique. */
  function CreateStatus(users: Users, statuses: Statuses, requester: UserId, name: string)
    : (r: Change<Statuses, StatusId>)
    ensures requester !in users ==> r == Change(statuses, Internal(UserNotFound))
    ensures requester in users && (exists id :: id in statuses && statuses[id].name == name) ==>
              r == Change(statuses, Internal(StatusAlreadyExists))
    ensures r.result.Ok? <==>
              requester in users && forall id :: id in statuses ==> statuses[id].name != name
    ensures r.result.Ok? ==>
              && r.result.value !in statuses
              && r.state == statuses[r.result.value := Status(name)]
    ensures UniqueNames(statuses) ==> UniqueNames(r.state)
  {
    if requester !in users then Change(statuses, Internal(UserNotFound))
    else if FindByName(statuses, name).Some? then Change(statuses, Internal(StatusAlreadyExists))
    else
      var id := Tables.Fresh(statuses.Keys);
      Change(statuses[id := Status(name)], Ok(id))
  }

  /** `fetchAllStatuses`: every row, or a failure exactly when the store is
      empty. */
  function FetchAllStatuses(users: Users, statuses: Statuses, requester: UserId)
    : (r: Result<Statuses>)
    ensures requester !in users ==> r == Internal(UserNotFound)
    ensures requester in users && |statuses| == 0 ==> r == Internal(NoStatusesFound)
    ensures r.Ok? <==> requester in users && |statuses| > 0
    ensures r.Ok? ==> r.value == statuses
  {
    if requester !in users then Internal(UserNotFound)
    else if |statuses| == 0 then Internal(NoStatusesFound)
    else Ok(statuses)
  }

  /** `fetchStatusById`: the row with that id, or a failure exactly when there
      is none. */
  function FetchStatusById(users: Users, statuses: Statuses, requester: UserId, id: StatusId)
    : (r: Result<Status>)
    ensures requester !in users ==> r == Internal(UserNotFound)
    ensures r.Ok? <==> requester in users && id in statuses
    ensures r.Ok? ==> r.value == statuses[id]
    ensures requester in users && id !in statuses ==> r == Internal(StatusNotFound)
  {
    if requester !in users then Internal(UserNotFound)
    else if id !in statuses then Internal(StatusNotFound)
    else Ok(statuses[id])
  }

  /** A status just created is what the fetches and the lookup by its name
      return afterwards. */
  lemma CreatedStatusReadBack(users: Users, statuses: Statuses, requester: UserId, name: string)
    requires CreateStatus(users, statuses, requester, name).result.Ok?
    ensures var r := CreateStatus(users, statuses, requester, name);
            var id := r.result.value;
            && FetchStatusById(users, r.state, requester, id) == Ok(Status(name))
            && FindByName(r.state, name) == Some(id)
            && FetchAllStatuses(users, r.state, requester).Ok?
            && id in FetchAllStatuses(users, r.state, requester).value
  {
    var r := CreateStatus(users, statuses, requester, name);
    var id := r.result.value;
    assert id in r.state && r.state[id].name == name;
  }

  /** Some row other than `id` already carries `name`. */
  predicate NameTakenByOther(statuses: Statuses, id: StatusId, name: string)
  {
    exists k | k in statuses :: k != id && statuses[k].name == name
  }

  /** `updateStatus`: a missing requester or id fails; a truthy name renames
      the row unless the unique constraint refuses it; an absent or empty
      name leaves the row as it was. No other row changes and names stay
      unique. */
  function UpdateStatus(users: Users, statuses: Statuses, requester: UserId, id: StatusId,
                        name: Option<string>): (r: Change<Statuses, Status>)
    ensures requester !in users ==> r == Change(statuses, Internal(UserNotFound))
    ensures requester in users && id !in statuses ==> r == Change(statuses, Internal(StatusNotFound))
    ensures r.result.Err? ==> r.state == statuses
    ensures r.result.Ok? <==>
              requester in users && id in statuses
              && !(Truthy(name) && NameTakenByOther(statuses, id, name.value))
    ensures r.result.Ok? ==>
              && r.state.Keys == statuses.Keys
              && r.result.value == r.state[id]
              && (forall k :: k in statuses && k != id ==> r.state[k] == statuses[k])
              && (Truthy(name) ==> r.state[id].name == name.value)
              && (!Truthy(name) ==> r.state[id] == statuses[id])
    ensures UniqueNames(statuses) ==> UniqueNames(r.state)
  {
    if requester !in users then Change(statuses, Internal(UserNotFound))
    else if id !in statuses then Change(statuses, Internal(StatusNotFound))
    else
      var s := if Truthy(name) then statuses[id].(name := name.value) else statuses[id];
      if Truthy(name) && NameTakenByOther(statuses, id, name.value) then
        Change(statuses, Internal(UniqueViolation))
      else
        Change(statuses[id := s], Ok(s))
  }

  /** After a successful update, fetching the row by id returns what the
      update wrote, and a truthy new name is found by the lookup. */
  lemma UpdatedStatusReadBack(users: Users, statuses: Statuses, requester: UserId, id: StatusId,
                              name: Option<string>)
    requires UpdateStatus(users, statuses, requester, id, name).result.Ok?
    ensures var r := UpdateStatus(users, statuses, requester, id, name);
            && FetchStatusById(users, r.state, requester, id) == r.result
            && (Truthy(name) ==> FindByName(r.state, name.value).Some?)
  {
    var r := UpdateStatus(users, statuses, requester, id, name);
    assert id in r.state;
  }
}
