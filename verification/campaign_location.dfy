/** Campaign locations: named rows (the name is not declared unique) with an
    optional status, and the operations of their service. */
module LocationService {
  import opened Outcomes
  import opened UserEntity
  import opened StatusService
  import Tables

  type LocationId = nat

  datatype Location = Location(name: string, status: Option<StatusId>)

  type Locations = map<LocationId, Location>

  /** `findOne({ where: { name } })`: some location with that name. */
  function FindLocationByName(locations: Locations, name: string): (r: Option<LocationId>)
    ensures r.Some? ==> r.value in locations && locations[r.value].name == name
    ensures r.None? <==> forall id :: id in locations ==> locations[id].name != name
  {
    Tables.FindKey(locations, (l: Location) => l.name == name)
  }

  /** `createLocation`: fails, with nothing written, for a missing requester,
      a name some location already has, a named status that does not exist,
      or (with no status named) a missing "Inactive" status. Otherwise
      exactly one location is added, carrying the given name and the named
      status, or "Inactive" when none is named. */
  function CreateLocation(users: Users, statuses: Statuses, locations: Locations,
                          requester: UserId, name: string, status: Option<string>)
    : (r: Change<Locations, LocationId>)
    ensures r.result.Err? ==> r.state == locations && r.result.kind == InternalServerError
    ensures requester !in users ==> r.result == Internal(UserNotFound)
    ensures requester in users && FindLocationByName(locations, name).Some? ==>
              r.result == Internal(LocationAlreadyExists)
    ensures requester in users && FindLocationByName(locations, name).None? ==>
              && (Truthy(status) && FindByName(statuses, status.value).None? ==>
                    r.result == Internal(StatusDoesNotExist(status.value)))
              && (!Truthy(status) && FindByName(statuses, INACTIVE_STATUS).None? ==>
                    r.result == Internal(DefaultStatusNotFound))
    ensures r.result.Ok? <==>
              && requester in users
              && FindLocationByName(locations, name).None?
              && FindByName(statuses, if Truthy(status) then status.value else INACTIVE_STATUS).Some?
    ensures r.result.Ok? ==>
              var id := r.result.value;
              && id !in locations
              && r.state.Keys == locations.Keys + {id}
              && (forall k :: k in locations ==> r.state[k] == locations[k])
              && r.state[id].name == name
              && r.state[id].status.Some?
              && r.state[id].status.value in statuses
              && statuses[r.state[id].status.value].name == (if Truthy(status) then status.value else INACTIVE_STATUS)
  {
    if requester !in users then Change(locations, Internal(UserNotFound))
    else if FindLocationByName(locations, name).Some? then Change(locations, Internal(LocationAlreadyExists))
    else
      var chosen := StatusFor(statuses, status, INACTIVE_STATUS);
      match chosen
      case Err(k, m) => Change(locations, Err(k, m))
      case Ok(sid) =>
        var id := Tables.Fresh(locations.Keys);
        Change(locations[id := Location(name, Some(sid))], Ok(id))
  }

  /** A location just created is what fetching its id and looking up its
      name return afterwards. */
  lemma CreatedLocationReadBack(users: Users, statuses: Statuses, locations: Locations,
                                requester: UserId, name: string, status: Option<string>)
    requires CreateLocation(users, statuses, locations, requester, name, status).result.Ok?
    ensures var r := CreateLocation(users, statuses, locations, requester, name, status);
            var id := r.result.value;
            && FetchLocationById(users, r.state, requester, id) == Ok(r.state[id])
            && FindLocationByName(r.state, name) == Some(id)
            && FetchAllLocations(users, r.state, requester) == Ok(r.state)
  {
    var r := CreateLocation(users, statuses, locations, requester, name, status);
    var id := r.result.value;
    assert id in r.state && r.state[id].name == name;
  }

  /** `fetchAllLocations`: every location, for an existing requester. */
  function FetchAllLocations(users: Users, locations: Locations, requester: UserId)
    : (r: Result<Locations>)
    ensures r.Ok? <==> requester in users
    ensures r.Ok? ==> r.value == locations
    ensures r.Err? ==> r == Internal(UserNotFound)
  {
    if requester !in users then Internal(UserNotFound) else Ok(locations)
  }

  /** `fetchLocationById`: the location with that id, or a failure exactly
      when there is none. */
  function FetchLocationById(users: Users, locations: Locations, requester: UserId, id: LocationId)
    : (r: Result<Location>)
    ensures requester !in users ==> r == Internal(UserNotFound)
    ensures requester in users && id !in locations ==> r == Internal(LocationNotFound)
    ensures r.Ok? <==> requester in users && id in locations
    ensures r.Ok? ==> r.value == locations[id]
  {
    if requester !in users then Internal(UserNotFound)
    else if id !in locations then Internal(LocationNotFound)
    else Ok(locations[id])
  }

  /** `updateLocation`: a missing requester or id fails; a truthy name
      replaces the name, a truthy status name must name an existing status,
      which then replaces the status; absent or empty fields leave their
      column as it was, and no other location changes. */
  function UpdateLocation(users: Users, statuses: Statuses, locations: Locations,
                          requester: UserId, id: LocationId,
                          name: Option<string>, status: Option<string>)
    : (r: Change<Locations, Location>)
    ensures r.result.Err? ==> r.state == locations && r.result.kind == InternalServerError
    ensures requester !in users ==> r.result == Internal(UserNotFound)
    ensures requester in users && id !in locations ==> r.result == Internal(LocationNotFound)
    ensures requester in users && id in locations && Truthy(status)
            && FindByName(statuses, status.value).None? ==>
              r.result == Internal(StatusDoesNotExist(status.value))
    ensures r.result.Ok? <==>
              requester in users && id in locations
              && (Truthy(status) ==> FindByName(statuses, status.value).Some?)
    ensures r.result.Ok? ==>
              var l := r.result.value;
              && r.state == locations[id := l]
              && l.name == (if Truthy(name) then name.value else locations[id].name)
              && (!Truthy(status) ==> l.status == locations[id].status)
              && (Truthy(status) ==>
                    l.status.Some? && l.status.value in statuses
                    && statuses[l.status.value].name == status.value)
  {
    if requester !in users then Change(locations, Internal(UserNotFound))
    else if id !in locations then Change(locations, Internal(LocationNotFound))
    else
      var renamed := if Truthy(name) then locations[id].(name := name.value) else locations[id];
      if !Truthy(status) then Change(locations[id := renamed], Ok(renamed))
      else
        match FindByName(statuses, status.value)
        case None => Change(locations, Internal(StatusDoesNotExist(status.value)))
        case Some(sid) =>
          var l := renamed.(status := Some(sid));
          Change(locations[id := l], Ok(l))
  }

  /** After a successful update, fetching the location by id returns what
      the update wrote, and a truthy new name is found by the lookup. */
  lemma UpdatedLocationReadBack(users: Users, statuses: Statuses, locations: Locations,
                                requester: UserId, id: LocationId,
                                name: Option<string>, status: Option<string>)
    requires UpdateLocation(users, statuses, locations, requester, id, name, status).result.Ok?
    ensures var r := UpdateLocation(users, statuses, locations, requester, id, name, status);
            && FetchLocationById(users, r.state, requester, id) == r.result
            && (Truthy(name) ==> FindLocationByName(r.state, name.value).Some?)
  {
    var r := UpdateLocation(users, statuses, locations, requester, id, name, status);
    assert id in r.state;
  }
}
