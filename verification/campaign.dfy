/** Campaigns: creation with find-or-create of their locations, paging,
    partial update, extension to a further location and the daily
    auto-completion. A campaign refers to its status by the status name. */
module CampaignService {
  import opened Outcomes
  import opened UserEntity
  import opened StatusService
  import opened LocationService
  import Tables

  type CampaignId = nat

  /** A row of `campaigns`. `from`/`to` are nullable instants; `amount` is
      the decimal amount in cents; `locations` is the join table in order. */
  datatype Campaign = Campaign(
    name: string,
    from: Option<int>,
    to: Option<int>,
    status: string,
    locations: seq<LocationId>,
    owner: UserId,
    amount: int,
    banners: seq<string>,
    createdAt: int)

  type Campaigns = map<CampaignId, Campaign>

  /** The tables the campaign service writes. */
  datatype Catalog = Catalog(locations: Locations, campaigns: Campaigns)

  datatype Resolved = Resolved(locations: Locations, ids: seq<LocationId>)

  /** `ids[i]` is a location named `names[i]`, for every position. */
  predicate NamesResolved(locations: Locations, ids: seq<LocationId>, names: seq<string>)
  {
    |ids| == |names| && forall i :: 0 <= i < |names| ==> ids[i] in locations && locations[ids[i]].name == names[i]
  }

  /** Every location of `before` is still in `after`, unchanged. */
  predicate Kept(before: Locations, after: Locations)
  {
    forall k :: k in before ==> k in after && after[k] == before[k]
  }

  /** No location of `seen` carries `name`. */
  predicate Missing(seen: Locations, name: string)
  {
    FindLocationByName(seen, name).None?
  }

  /** The find-or-create of the requested location names, as evidently meant:
      each element is looked up by its name. The lookups run under one
      `Promise.all` on one connection, so every lookup sees the table as it
      was before any creation is saved. Each name resolves to a location of
      that name, reusing an existing one and otherwise creating one;
      existing locations are kept unchanged. */
  function ResolveLocations(locations: Locations, names: seq<string>): (r: Resolved)
    ensures NamesResolved(r.locations, r.ids, names)
    ensures Kept(locations, r.locations)
  {
    ResolveFrom(locations, locations, names)
  }

  /** The resolution of `names` whose lookups see the snapshot `seen` and
      whose creations go into `locations`. */
  function ResolveFrom(seen: Locations, locations: Locations, names: seq<string>): (r: Resolved)
    requires Kept(seen, locations)
    ensures NamesResolved(r.locations, r.ids, names)
    ensures Kept(locations, r.locations)
    decreases |names|
  {
    if names == [] then Resolved(locations, [])
    else
      var step := FindOrCreate(seen, locations, names[0]);
      var rest := ResolveFrom(seen, step.locations, names[1..]);
      Resolved(rest.locations, [step.ids[0]] + rest.ids)
  }

  /** One find-or-create: a name that the snapshot carries resolves to that
      location and writes nothing; a missing one adds one new location of
      that name without a status. */
  function FindOrCreate(seen: Locations, locations: Locations, name: string): (r: Resolved)
    requires Kept(seen, locations)
    ensures |r.ids| == 1 && r.ids[0] in r.locations && r.locations[r.ids[0]].name == name
    ensures Kept(locations, r.locations)
    ensures !Missing(seen, name) ==> r == Resolved(locations, [FindLocationByName(seen, name).value])
    ensures Missing(seen, name) ==>
              && r.ids[0] !in locations
              && r.locations == locations[r.ids[0] := Location(name, None)]
  {
    match FindLocationByName(seen, name)
    case Some(id) => Resolved(locations, [id])
    case None =>
      var id := Tables.Fresh(locations.Keys);
      Resolved(locations[id := Location(name, None)], [id])
  }

  /** Every name the snapshot carries resolves to the location its lookup
      finds. */
  lemma {:induction false} ResolveFromReuses(seen: Locations, locations: Locations, names: seq<string>)
    requires Kept(seen, locations)
    ensures var r := ResolveFrom(seen, locations, names);
            forall i :: 0 <= i < |names| && !Missing(seen, names[i]) ==>
              r.ids[i] == FindLocationByName(seen, names[i]).value
    decreases |names|
  {
    if names != [] {
      var step := FindOrCreate(seen, locations, names[0]);
      ResolveFromReuses(seen, step.locations, names[1..]);
      var r := ResolveFrom(seen, locations, names);
      var rest := ResolveFrom(seen, step.locations, names[1..]);
      assert r.ids == [step.ids[0]] + rest.ids;
      forall i | 0 < i < |names| && !Missing(seen, names[i])
        ensures r.ids[i] == FindLocationByName(seen, names[i]).value
      {
        assert names[1..][i - 1] == names[i];
      }
    }
  }

  /** A name that some location already carries resolves to exactly the
      location the lookup finds; none is created for it. */
  lemma ResolveReusesExisting(locations: Locations, names: seq<string>, i: nat)
    requires i < |names| && FindLocationByName(locations, names[i]).Some?
    ensures ResolveLocations(locations, names).ids[i] == FindLocationByName(locations, names[i]).value
  {
    ResolveFromReuses(locations, locations, names);
  }

  /** A missing position resolves to a location the table did not have. */
  lemma {:induction false} ResolveFromCreatesFresh(seen: Locations, locations: Locations, names: seq<string>)
    requires Kept(seen, locations)
    ensures var r := ResolveFrom(seen, locations, names);
            forall i :: 0 <= i < |names| && Missing(seen, names[i]) ==> r.ids[i] !in locations
    decreases |names|
  {
    if names != [] {
      var step := FindOrCreate(seen, locations, names[0]);
      ResolveFromCreatesFresh(seen, step.locations, names[1..]);
      var r := ResolveFrom(seen, locations, names);
      var rest := ResolveFrom(seen, step.locations, names[1..]);
      assert r.ids == [step.ids[0]] + rest.ids;
      forall i | 0 < i < |names| && Missing(seen, names[i])
        ensures r.ids[i] !in locations
      {
        assert names[1..][i - 1] == names[i];
      }
    }
  }

  /** Two missing positions resolve to two different locations. */
  lemma {:induction false} ResolveFromCreatesDistinct(seen: Locations, locations: Locations, names: seq<string>)
    requires Kept(seen, locations)
    ensures var r := ResolveFrom(seen, locations, names);
            forall i, j :: 0 <= i < j < |names| && Missing(seen, names[i]) && Missing(seen, names[j]) ==>
              r.ids[i] != r.ids[j]
    decreases |names|
  {
    if names != [] {
      var step := FindOrCreate(seen, locations, names[0]);
      ResolveFromCreatesDistinct(seen, step.locations, names[1..]);
      ResolveFromCreatesFresh(seen, step.locations, names[1..]);
      var r := ResolveFrom(seen, locations, names);
      var rest := ResolveFrom(seen, step.locations, names[1..]);
      assert r.ids == [step.ids[0]] + rest.ids;
      forall i, j | 0 <= i < j < |names| && Missing(seen, names[i]) && Missing(seen, names[j])
        ensures r.ids[i] != r.ids[j]
      {
        assert names[1..][j - 1] == names[j];
        if i > 0 {
          assert names[1..][i - 1] == names[i];
        } else {
          assert r.ids[0] in step.locations;
        }
      }
    }
  }

  /** `k` is the resolution of some position whose name the snapshot lacks. */
  predicate CreatedFor(seen: Locations, names: seq<string>, ids: seq<LocationId>, k: LocationId)
  {
    exists i :: 0 <= i < |names| && i < |ids| && ids[i] == k && Missing(seen, names[i])
  }

  /** Every location a resolution adds has no status. */
  lemma {:induction false} ResolveFromCreatesBare(seen: Locations, locations: Locations, names: seq<string>)
    requires Kept(seen, locations)
    ensures var r := ResolveFrom(seen, locations, names);
            forall k :: k in r.locations && k !in locations ==> r.locations[k].status.None?
    decreases |names|
  {
    if names != [] {
      var step := FindOrCreate(seen, locations, names[0]);
      ResolveFromCreatesBare(seen, step.locations, names[1..]);
    }
  }

  /** One step of the provenance: a location the first name did not create
      and the rest of the names account for is accounted for by all of them. */
  lemma CreatedForShift(seen: Locations, names: seq<string>, first: LocationId, ids: seq<LocationId>,
                        k: LocationId)
    requires names != [] && CreatedFor(seen, names[1..], ids, k)
    ensures CreatedFor(seen, names, [first] + ids, k)
  {
    var i :| 0 <= i < |names[1..]| && i < |ids| && ids[i] == k && Missing(seen, names[1..][i]);
    assert ([first] + ids)[i + 1] == k && names[i + 1] == names[1..][i];
  }

  /** Every location a resolution adds is the resolution of some missing
      position. */
  lemma {:induction false} ResolveFromCreatesOnly(seen: Locations, locations: Locations, names: seq<string>)
    requires Kept(seen, locations)
    ensures var r := ResolveFrom(seen, locations, names);
            forall k :: k in r.locations && k !in locations ==> CreatedFor(seen, names, r.ids, k)
    decreases |names|
  {
    if names != [] {
      var step := FindOrCreate(seen, locations, names[0]);
      ResolveFromCreatesOnly(seen, step.locations, names[1..]);
      var rest := ResolveFrom(seen, step.locations, names[1..]);
      var ids := [step.ids[0]] + rest.ids;
      assert ResolveFrom(seen, locations, names) == Resolved(rest.locations, ids);
      forall k | k in rest.locations && k !in locations
        ensures CreatedFor(seen, names, ids, k)
      {
        if k in step.locations {
          assert ids[0] == k && Missing(seen, names[0]);
        } else {
          CreatedForShift(seen, names, step.ids[0], rest.ids, k);
        }
      }
    }
  }

  /** A location created by the resolution has no status and carries one of
      the requested names that no existing location carried; every
      requested name no location carried gets its own new location, one per
      position, so a new name requested twice is created twice. */
  lemma ResolveCreatesOnlyMissing(locations: Locations, names: seq<string>)
    ensures var r := ResolveLocations(locations, names);
            forall k :: k in r.locations && k !in locations ==>
              && r.locations[k].status.None?
              && CreatedFor(locations, names, r.ids, k)
    ensures var r := ResolveLocations(locations, names);
            forall i :: 0 <= i < |names| && Missing(locations, names[i]) ==> r.ids[i] !in locations
    ensures var r := ResolveLocations(locations, names);
            forall i, j :: 0 <= i < j < |names| && Missing(locations, names[i]) && Missing(locations, names[j]) ==>
              r.ids[i] != r.ids[j]
  {
    ResolveFromCreatesBare(locations, locations, names);
    ResolveFromCreatesOnly(locations, locations, names);
    ResolveFromCreatesFresh(locations, locations, names);
    ResolveFromCreatesDistinct(locations, locations, names);
  }

  /** A name no location carries, requested twice in one call, yields two new
      locations of that name. */
  lemma RepeatedMissingNameCreatedTwice(locations: Locations, name: string)
    requires Missing(locations, name)
    ensures var r := ResolveLocations(locations, [name, name]);
            && r.ids[0] != r.ids[1]
            && r.ids[0] !in locations && r.ids[1] !in locations
            && r.locations[r.ids[0]].name == name && r.locations[r.ids[1]].name == name
  {
    ResolveCreatesOnlyMissing(locations, [name, name]);
  }

  /** Two positions `i < j` of `ids` name one location that `linked` does not
      hold. Saving such a list inserts that (campaign, location) pair into the
      join table twice; the table is keyed on the pair and refuses the second
      insert. Pairs already in `linked` are not inserted again. */
  predicate RepeatsUnlinked(ids: seq<LocationId>, linked: seq<LocationId>)
  {
    exists i, j :: 0 <= i < j < |ids| && ids[i] == ids[j] && ids[i] !in linked
  }

  /** Two positions `i < j` request one name that an existing location
      carries, and that location is not in `linked`. */
  predicate SharesExisting(locations: Locations, names: seq<string>, linked: seq<LocationId>)
  {
    exists i, j :: 0 <= i < j < |names| && names[i] == names[j] && !Missing(locations, names[i])
                   && FindLocationByName(locations, names[i]).value !in linked
  }

  /** With nothing linked yet, a repeat is exactly a duplicate. */
  lemma RepeatsUnlinkedIsDuplicate(ids: seq<LocationId>)
    ensures RepeatsUnlinked(ids, []) <==> !Tables.NoDup(ids)
  {
    if !Tables.NoDup(ids) {
      var i, j :| 0 <= i < j < |ids| && ids[i] == ids[j];
      assert ids[i] !in [];
    }
  }

  /** The resolution repeats an unlinked location exactly when an existing
      name is requested twice: missing names get a new location per
      position, and two existing locations with one id carry one name. */
  lemma RepeatsIffSharesExisting(locations: Locations, names: seq<string>, linked: seq<LocationId>)
    ensures RepeatsUnlinked(ResolveLocations(locations, names).ids, linked)
            <==> SharesExisting(locations, names, linked)
  {
    var r := ResolveLocations(locations, names);
    ResolveFromReuses(locations, locations, names);
    ResolveCreatesOnlyMissing(locations, names);
    if RepeatsUnlinked(r.ids, linked) {
      var i, j :| 0 <= i < j < |r.ids| && r.ids[i] == r.ids[j] && r.ids[i] !in linked;
      assert !Missing(locations, names[i]) && !Missing(locations, names[j]);
      assert r.locations[r.ids[i]].name == names[i] && r.locations[r.ids[j]].name == names[j];
      assert FindLocationByName(locations, names[i]).value == r.ids[i];
    }
    if SharesExisting(locations, names, linked) {
      var i, j :| 0 <= i < j < |names| && names[i] == names[j] && !Missing(locations, names[i])
                  && FindLocationByName(locations, names[i]).value !in linked;
      assert r.ids[i] == r.ids[j];
    }
  }

  /** The find-or-create as written. The request's elements are strings, so
      `location.name` is undefined and the lookup's condition on it is
      dropped: the lookup matches any location. With some location in the
      table every element resolves to the same existing location and nothing
      is created; with none, the creation saves no name into the NOT NULL
      name column and the whole call fails. */
  function ResolveAsWritten(locations: Locations, names: seq<string>): (r: Result<seq<LocationId>>)
    ensures names == [] ==> r == Ok([])
    ensures r.Ok? <==> names == [] || locations != map[]
    ensures r.Err? ==> r == Internal(NotNullViolation)
    ensures r.Ok? ==>
              && |r.value| == |names|
              && forall i :: 0 <= i < |r.value| ==> r.value[i] in locations && r.value[i] == r.value[0]
  {
    if names == [] then Ok([])
    else
      match Tables.FindKey(locations, (l: Location) => true)
      case None => Internal(NotNullViolation)
      case Some(id) => Ok(seq(|names|, _ => id))
  }

  /** As written the requested names do not matter: any two requests of the
      same length resolve alike. */
  lemma AsWrittenIgnoresNames(locations: Locations, names: seq<string>, other: seq<string>)
    requires |names| == |other|
    ensures ResolveAsWritten(locations, names) == ResolveAsWritten(locations, other)
  {
  }

  /** With only "Abuja" stored, a request for "Lagos" is attached to Abuja as
      written, where the intended resolution creates a location named
      "Lagos", and "Lagos" with "Kano" are both attached to Abuja, a pair
      the join table refuses; with no location stored, the written request
      fails where the intended one succeeds. */
  lemma NamesIgnoredAsWritten()
    ensures var t := map[0 := Location("Abuja", None)];
            && ResolveAsWritten(t, ["Lagos"]) == Ok([0])
            && var r := ResolveLocations(t, ["Lagos"]);
               r.ids[0] != 0 && r.locations[r.ids[0]].name == "Lagos"
    ensures var t := map[0 := Location("Abuja", None)];
            && ResolveAsWritten(t, ["Lagos", "Kano"]) == Ok([0, 0])
            && RepeatsUnlinked([0, 0], [])
    ensures ResolveAsWritten(map[], ["Lagos"]) == Internal(NotNullViolation)
  {
    var t := map[0 := Location("Abuja", None)];
    assert 0 in t;
    var two := ResolveAsWritten(t, ["Lagos", "Kano"]);
    assert two.Ok? && |two.value| == 2 && two.value[0] == 0 && two.value[1] == 0;
    assert two.value == [0, 0];
    assert [0, 0][0] == [0, 0][1] && [0, 0][0] !in [];
    var w := ResolveAsWritten(t, ["Lagos"]);
    assert 0 in t;
    assert w.Ok? && |w.value| == 1 && w.value[0] == 0;
    assert w.value == [0];
    var r := ResolveLocations(t, ["Lagos"]);
    assert r.locations[r.ids[0]].name == "Lagos";
    assert t[0].name != "Lagos";
  }

  /** As written, a request naming two or more locations, with some location
      stored, resolves every element to one location, which the join table
      then receives twice: creating the campaign fails however the names
      differ. */
  lemma AsWrittenRepeatsLink(locations: Locations, names: seq<string>)
    requires |names| >= 2 && locations != map[]
    ensures var w := ResolveAsWritten(locations, names);
            w.Ok? && RepeatsUnlinked(w.value, [])
  {
    var w := ResolveAsWritten(locations, names);
    assert w.value[0] == w.value[1] && w.value[0] !in [];
  }

  /** `createCampaign`: fails for a missing requester or a locations field
      that is not an array; after resolving the locations, a named status
      must exist, and with none named "Draft" is used and must exist. Saving
      the campaign then fails when two requested names resolve to one
      existing location, because the join table refuses the repeated pair.
      Any failure undoes everything, created locations included. Success
      adds exactly one campaign, owned by the requester, with the given
      fields, the chosen status and one distinct resolved location per
      requested name. */
  function CreateCampaign(users: Users, statuses: Statuses, cat: Catalog, requester: UserId,
                          name: string, from: Option<int>, to: Option<int>, amount: int,
                          locations: Option<seq<string>>, status: Option<string>,
                          banners: seq<string>, now: int)
    : (r: Change<Catalog, CampaignId>)
    ensures r.result.Err? ==> r.state == cat && r.result.kind == InternalServerError
    ensures requester !in users ==> r.result == Internal(UserNotFound)
    ensures requester in users && locations.None? ==> r.result == Internal(LocationsMustBeArrays)
    ensures requester in users && locations.Some?
            && FindByName(statuses, if Truthy(status) then status.value else DRAFT_STATUS).Some?
            && SharesExisting(cat.locations, locations.value, []) ==>
              r.result == Internal(UniqueViolation)
    ensures r.result.Ok? <==>
              && requester in users && locations.Some?
              && FindByName(statuses, if Truthy(status) then status.value else DRAFT_STATUS).Some?
              && !SharesExisting(cat.locations, locations.value, [])
    ensures r.result.Ok? ==>
              var id := r.result.value;
              var names := locations.value;
              && id !in cat.campaigns
              && r.state.campaigns.Keys == cat.campaigns.Keys + {id}
              && (forall k :: k in cat.campaigns ==> r.state.campaigns[k] == cat.campaigns[k])
              && var c := r.state.campaigns[id];
              && c.name == name && c.from == from && c.to == to && c.amount == amount
              && c.banners == banners && c.owner == requester && c.createdAt == now
              && c.status == (if Truthy(status) then status.value else DRAFT_STATUS)
              && NamesResolved(r.state.locations, c.locations, names)
              && Tables.NoDup(c.locations)
              && Kept(cat.locations, r.state.locations)
  {
    if requester !in users then Change(cat, Internal(UserNotFound))
    else if locations.None? then Change(cat, Internal(LocationsMustBeArrays))
    else
      var resolved := ResolveLocations(cat.locations, locations.value);
      RepeatsIffSharesExisting(cat.locations, locations.value, []);
      RepeatsUnlinkedIsDuplicate(resolved.ids);
      match StatusFor(statuses, status, DRAFT_STATUS)
      case Err(k, m) => Change(cat, Err(k, m))
      case Ok(sid) =>
        if RepeatsUnlinked(resolved.ids, []) then Change(cat, Internal(UniqueViolation))
        else
          var id := Tables.Fresh(cat.campaigns.Keys);
          var c := Campaign(name, from, to, statuses[sid].name, resolved.ids, requester, amount, banners, now);
          Change(Catalog(resolved.locations, cat.campaigns[id := c]), Ok(id))
  }

  /** What `fetchAllCampaigns` returns around one page of rows. */
  datatype Page<T> = Page(data: seq<T>, total: nat, page: int, lastPage: nat)

  /** `Math.ceil(total / limit)` for a positive limit. */
  function CeilDiv(total: nat, limit: nat): (q: nat)
    requires limit >= 1
    ensures q * limit >= total
    ensures q == 0 || (q - 1) * limit < total
  {
    (total + limit - 1) / limit
  }

  /** At most `limit` rows starting at `skip`: `skip` and `take` of the query. */
  function Window<T>(rows: seq<T>, skip: nat, limit: nat): (w: seq<T>)
    ensures skip >= |rows| ==> w == []
    ensures skip < |rows| && skip + limit <= |rows| ==> |w| == limit
    ensures skip < |rows| && |rows| < skip + limit ==> |w| == |rows| - skip
    ensures forall i :: 0 <= i < |w| ==> w[i] == rows[skip + i]
  {
    if skip >= |rows| then []
    else if skip + limit <= |rows| then rows[skip..skip + limit]
    else rows[skip..]
  }

  /** A window is the slice between its bounds, each clipped to the rows. */
  lemma WindowIsSlice<T>(rows: seq<T>, skip: nat, limit: nat)
    ensures Window(rows, skip, limit) == rows[Clip(skip, |rows|)..Clip(skip + limit, |rows|)]
  {
  }

  /** `fetchAllCampaigns(page, limit)` over the rows in the query's order:
      the window of `limit` rows that skips `(page - 1) * limit`, the row
      count and the number of the last page. */
  function FetchAllCampaigns<T>(rows: seq<T>, page: int, limit: int): (r: Page<T>)
    requires page >= 1 && limit >= 1
    ensures r.total == |rows| && r.page == page
    ensures r.lastPage * limit >= |rows|
    ensures r.lastPage == 0 || (r.lastPage - 1) * limit < |rows|
    ensures r.data == Window(rows, (page - 1) * limit, limit)
  {
    Page(Window(rows, (page - 1) * limit, limit), |rows|, page, CeilDiv(|rows|, limit))
  }

  /** The number of rows before page `k + 1`, built by repeated addition. */
  function Offset(k: nat, limit: nat): nat
  {
    if k == 0 then 0 else Offset(k - 1, limit) + limit
  }

  /** The offset of page `k + 1` is `k * limit`, the query's skip. */
  lemma {:induction false} OffsetIsProduct(k: nat, limit: nat)
    ensures Offset(k, limit) == k * limit
  {
    if k > 0 {
      OffsetIsProduct(k - 1, limit);
      assert (k - 1) * limit + limit == k * limit;
    }
  }

  /** `x` cut down to `n`. */
  function Clip(x: nat, n: nat): nat
  {
    if x <= n then x else n
  }

  /** The rows of pages 1 to `k`, one after the other (page `k` holds the
      data `FetchAllCampaigns(rows, k, limit)` returns). */
  function PagesUpTo<T>(rows: seq<T>, limit: nat, k: nat): seq<T>
  {
    if k == 0 then [] else PagesUpTo(rows, limit, k - 1) + Window(rows, Offset(k - 1, limit), limit)
  }

  /** A prefix is a shorter prefix followed by the slice between them. */
  lemma PrefixSplits<T>(rows: seq<T>, lo: nat, hi: nat)
    requires lo <= hi <= |rows|
    ensures rows[..hi] == rows[..lo] + rows[lo..hi]
  {
  }

  /** The first `k` pages are exactly the rows before page `k + 1`. */
  lemma {:induction false} PagesArePrefix<T>(rows: seq<T>, limit: nat, k: nat)
    ensures PagesUpTo(rows, limit, k) == rows[..Clip(Offset(k, limit), |rows|)]
  {
    if k > 0 {
      PagesArePrefix(rows, limit, k - 1);
      var skip := Offset(k - 1, limit);
      WindowIsSlice(rows, skip, limit);
      PrefixSplits(rows, Clip(skip, |rows|), Clip(skip + limit, |rows|));
    }
  }

  /** Pages 1 to `lastPage` together hold every row exactly once, in order,
      and each is the data `fetchAllCampaigns` returns for that page. */
  lemma PagesCoverAllRows<T>(rows: seq<T>, limit: int)
    requires limit >= 1
    ensures PagesUpTo(rows, limit, FetchAllCampaigns(rows, 1, limit).lastPage) == rows
    ensures forall page :: 1 <= page <= FetchAllCampaigns(rows, 1, limit).lastPage ==>
              FetchAllCampaigns(rows, page, limit).data == Window(rows, Offset(page - 1, limit), limit)
  {
    var last := FetchAllCampaigns(rows, 1, limit).lastPage;
    PagesArePrefix(rows, limit, last);
    OffsetIsProduct(last, limit);
    forall page | 1 <= page <= last
      ensures FetchAllCampaigns(rows, page, limit).data == Window(rows, Offset(page - 1, limit), limit)
    {
      OffsetIsProduct(page - 1, limit);
    }
  }

  /** `updateCampaign`: fails for a missing requester or campaign, and for a
      truthy status name no status carries; any failure writes nothing.
      Otherwise a field is overwritten only when its new value is truthy: a
      non-empty name, a present date, a non-zero amount, a status name, any
      locations array (resolved like creation) and a non-empty banner list.
      The save fails when two requested names resolve to one existing
      location the campaign is not yet linked to, because the join table
      refuses the repeated pair. Owner and creation time never change, and
      no other campaign does. */
  function UpdateCampaign(users: Users, statuses: Statuses, cat: Catalog, requester: UserId,
                          id: CampaignId, name: Option<string>, from: Option<int>, to: Option<int>,
                          amount: Option<int>, locations: Option<seq<string>>,
                          status: Option<string>, banners: Option<seq<string>>)
    : (r: Change<Catalog, Campaign>)
    ensures r.result.Err? ==> r.state == cat && r.result.kind == InternalServerError
    ensures requester !in users ==> r.result == Internal(UserNotFound)
    ensures requester in users && id !in cat.campaigns ==> r.result == Internal(CampaignNotFound)
    ensures requester in users && id in cat.campaigns && Truthy(status)
            && FindByName(statuses, status.value).None? ==>
              r.result == Internal(StatusDoesNotExist(status.value))
    ensures requester in users && id in cat.campaigns
            && (Truthy(status) ==> FindByName(statuses, status.value).Some?)
            && locations.Some? && SharesExisting(cat.locations, locations.value, cat.campaigns[id].locations) ==>
              r.result == Internal(UniqueViolation)
    ensures r.result.Ok? <==>
              && requester in users && id in cat.campaigns
              && (Truthy(status) ==> FindByName(statuses, status.value).Some?)
              && (locations.Some? ==> !SharesExisting(cat.locations, locations.value, cat.campaigns[id].locations))
    ensures r.result.Ok? ==>
              var old_c := cat.campaigns[id];
              var c := r.result.value;
              && r.state.campaigns == cat.campaigns[id := c]
              && c.name == (if Truthy(name) then name.value else old_c.name)
              && c.from == (if from.Some? then from else old_c.from)
              && c.to == (if to.Some? then to else old_c.to)
              && c.amount == (if amount.Some? && amount.value != 0 then amount.value else old_c.amount)
              && c.status == (if Truthy(status) then status.value else old_c.status)
              && c.banners == (if banners.Some? && banners.value != [] then banners.value else old_c.banners)
              && c.owner == old_c.owner && c.createdAt == old_c.createdAt
              && (locations.None? ==> c.locations == old_c.locations && r.state.locations == cat.locations)
              && (locations.Some? ==> NamesResolved(r.state.locations, c.locations, locations.value)
                                      && !RepeatsUnlinked(c.locations, old_c.locations))
              && Kept(cat.locations, r.state.locations)
  {
    if requester !in users then Change(cat, Internal(UserNotFound))
    else if id !in cat.campaigns then Change(cat, Internal(CampaignNotFound))
    else
      var c := cat.campaigns[id];
      if Truthy(status) && FindByName(statuses, status.value).None? then
        Change(cat, Internal(StatusDoesNotExist(status.value)))
      else
        var resolved := if locations.Some? then ResolveLocations(cat.locations, locations.value)
                        else Resolved(cat.locations, c.locations);
        RepeatsIffSharesExisting(cat.locations, if locations.Some? then locations.value else [], c.locations);
        if locations.Some? && RepeatsUnlinked(resolved.ids, c.locations) then
          Change(cat, Internal(UniqueViolation))
        else
        var v := Campaign(
          if Truthy(name) then name.value else c.name,
          if from.Some? then from else c.from,
          if to.Some? then to else c.to,
          if Truthy(status) then status.value else c.status,
          resolved.ids,
          c.owner,
          if amount.Some? && amount.value != 0 then amount.value else c.amount,
          if banners.Some? && banners.value != [] then banners.value else c.banners,
          c.createdAt);
        Change(Catalog(resolved.locations, cat.campaigns[id := v]), Ok(v))
  }

  /** An update carrying no truthy field, no locations and no banners saves
      the campaign as it was: nothing changes. */
  lemma EmptyUpdateKeepsCampaign(users: Users, statuses: Statuses, cat: Catalog, requester: UserId,
                                 id: CampaignId)
    requires requester in users && id in cat.campaigns
    ensures UpdateCampaign(users, statuses, cat, requester, id, None, None, None, None, None, None, None)
            == Change(cat, Ok(cat.campaigns[id]))
  {
    var r := UpdateCampaign(users, statuses, cat, requester, id, None, None, None, None, None, None, None);
    var c := cat.campaigns[id];
    assert r.result.value == c;
    assert cat.campaigns[id := c] == cat.campaigns;
    assert r.state == Catalog(cat.locations, cat.campaigns[id := c]);
  }

  /** Repeating an update that leaves the locations alone changes nothing
      beyond the first one. */
  lemma UpdateTwiceIsUpdateOnce(users: Users, statuses: Statuses, cat: Catalog, requester: UserId,
                                id: CampaignId, name: Option<string>, from: Option<int>, to: Option<int>,
                                amount: Option<int>, status: Option<string>, banners: Option<seq<string>>)
    ensures var once := UpdateCampaign(users, statuses, cat, requester, id, name, from, to, amount, None, status, banners);
            var twice := UpdateCampaign(users, statuses, once.state, requester, id, name, from, to, amount, None, status, banners);
            twice == once
  {
    var once := UpdateCampaign(users, statuses, cat, requester, id, name, from, to, amount, None, status, banners);
    if once.result.Ok? {
      var twice := UpdateCampaign(users, statuses, once.state, requester, id, name, from, to, amount, None, status, banners);
      assert twice.result.Ok?;
      assert twice.result.value == once.result.value;
      assert twice.state.campaigns == once.state.campaigns;
    }
  }

  /** `extendCampaignToNewLocation`: fails for a missing requester, campaign
      or location, or a location the campaign already lists. Otherwise
      exactly that location is appended, the others are kept in order, and a
      duplicate-free list stays duplicate-free. */
  function ExtendCampaignToNewLocation(users: Users, cat: Catalog, requester: UserId,
                                       campaignId: CampaignId, locationId: LocationId)
    : (r: Change<Catalog, Campaign>)
    ensures r.result.Err? ==> r.state == cat && r.result.kind == InternalServerError
    ensures requester !in users ==> r.result == Internal(UserNotFound)
    ensures requester in users && campaignId !in cat.campaigns ==> r.result == Internal(CampaignNotFound)
    ensures requester in users && campaignId in cat.campaigns && locationId !in cat.locations ==>
              r.result == Internal(LocationNotFound)
    ensures requester in users && campaignId in cat.campaigns && locationId in cat.locations
            && locationId in cat.campaigns[campaignId].locations ==>
              r.result == Internal(LocationAlreadyAdded)
    ensures r.result.Ok? <==>
              requester in users && campaignId in cat.campaigns && locationId in cat.locations
              && locationId !in cat.campaigns[campaignId].locations
    ensures r.result.Ok? ==>
              var c := cat.campaigns[campaignId];
              && r.result.value.locations == c.locations + [locationId]
              && r.result.value.(locations := c.locations) == c
              && r.state == cat.(campaigns := cat.campaigns[campaignId := r.result.value])
              && (Tables.NoDup(c.locations) ==> Tables.NoDup(r.result.value.locations))
  {
    if requester !in users then Change(cat, Internal(UserNotFound))
    else if campaignId !in cat.campaigns then Change(cat, Internal(CampaignNotFound))
    else if locationId !in cat.locations then Change(cat, Internal(LocationNotFound))
    else
      var c := cat.campaigns[campaignId];
      if locationId in c.locations then Change(cat, Internal(LocationAlreadyAdded))
      else
        var v := c.(locations := c.locations + [locationId]);
        Change(cat.(campaigns := cat.campaigns[campaignId := v]), Ok(v))
  }

  /** A campaign the midnight job completes: running, with an end before
      today (a campaign without an end is never selected). */
  predicate Overdue(c: Campaign, today: int)
  {
    c.status == RUNNING_STATUS && c.to.Some? && c.to.value < today
  }

  /** `autoCompleteCampaigns`, with the status filter and write as evidently
      meant: every overdue running campaign becomes "Completed" and nothing
      else about it changes; every other campaign is left untouched; none
      stays overdue. */
  function AutoCompleteCampaigns(campaigns: Campaigns, today: int): (r: Campaigns)
    ensures r.Keys == campaigns.Keys
    ensures forall k :: k in campaigns && Overdue(campaigns[k], today) ==>
              r[k] == campaigns[k].(status := COMPLETED_STATUS)
    ensures forall k :: k in campaigns && !Overdue(campaigns[k], today) ==> r[k] == campaigns[k]
    ensures forall k :: k in r ==> !Overdue(r[k], today)
  {
    map k | k in campaigns :: if Overdue(campaigns[k], today) then campaigns[k].(status := COMPLETED_STATUS)
                              else campaigns[k]
  }

  /** Running the job twice on the same day does what running it once does. */
  lemma AutoCompleteIdempotent(campaigns: Campaigns, today: int)
    ensures AutoCompleteCampaigns(AutoCompleteCampaigns(campaigns, today), today)
            == AutoCompleteCampaigns(campaigns, today)
  {
  }
}
