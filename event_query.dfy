/** `listEvents`, `getEventById` and `deleteEvent` of
    backend/src/controller/event.controller.ts: the tenant-scoped filter, the
    newest-first page with its pagination metadata, and lookup and deletion
    by `_id` within the caller's tenant. */
module EventQuery {
  import opened Wrappers
  import opened JsString
  import opened ObjectIds
  import opened EventModel
  import opened EventStore
  import opened EventNormalize
  import opened Cursor

  /** A `startDate`/`endDate` query parameter and what `new Date` makes of it
      (`None`: an Invalid Date). */
  datatype DateParam = DateParam(text: string, parsed: Option<int>)

  /** The query string. `page` and `limit` are what `parseInt` makes of them:
      `None` when the parameter is missing or not a number. */
  datatype ListParams = ListParams(
    userId: Option<string>,
    eventName: Option<string>,
    startDate: Option<DateParam>,
    endDate: Option<DateParam>,
    sessionId: Option<string>,
    page: Option<int>,
    limit: Option<int>)

  predicate DateTruthy(d: Option<DateParam>) {
    d.Some? && d.value.text != ""
  }

  const DefaultPage: int := 1
  const DefaultLimit: int := 50
  const MaxLimit: int := 1000

  /** `parseInt(page) || 1`: a missing, unparsable or zero page is page 1;
      a negative page is kept. */
  function PageNum(page: Option<int>): (r: int)
    ensures r != 0
    ensures page.Some? && page.value != 0 ==> r == page.value
    ensures page.None? || page.value == 0 ==> r == DefaultPage
  {
    if page.Some? && page.value != 0 then page.value else DefaultPage
  }

  /** `Math.min(parseInt(limit) || 50, 1000)`: never above 1000 and never 0,
      but a negative limit is kept. */
  function LimitNum(limit: Option<int>): (r: int)
    ensures r != 0 && r <= MaxLimit
    ensures limit.Some? && limit.value != 0 ==> r == (if limit.value < MaxLimit then limit.value else MaxLimit)
    ensures limit.None? || limit.value == 0 ==> r == DefaultLimit
  {
    var l := if limit.Some? && limit.value != 0 then limit.value else DefaultLimit;
    if l < MaxLimit then l else MaxLimit
  }

  function SkipOf(pageNum: int, limitNum: int): int {
    (pageNum - 1) * limitNum
  }

  /** The `timestamp` part of the query object: `$gte` and `$lte`. */
  datatype TimeRange = TimeRange(gte: Option<DateParam>, lte: Option<DateParam>)

  /** The `query` object as the handler builds it, before Mongoose casts it. */
  datatype Query = Query(
    organizationId: string,
    projectId: string,
    userId: Option<string>,
    eventName: Option<string>,
    sessionId: Option<string>,
    timestamp: Option<TimeRange>)

  /** The query object for the given parameters and tenant: the tenant
      always, each string filter only when it is non-empty, and a timestamp
      range when either date is given. */
  function QueryOf(p: ListParams, organizationId: string, projectId: string): Query {
    Query(
      organizationId,
      projectId,
      if Truthy(p.userId) then p.userId else None,
      if Truthy(p.eventName) then p.eventName else None,
      if Truthy(p.sessionId) then p.sessionId else None,
      if DateTruthy(p.startDate) || DateTruthy(p.endDate) then
        Some(TimeRange(if DateTruthy(p.startDate) then p.startDate else None,
                       if DateTruthy(p.endDate) then p.endDate else None))
      else None)
  }

  /** The query object built by assigning one field after another. */
  method BuildQuery(p: ListParams, organizationId: string, projectId: string) returns (q: Query)
    ensures q == QueryOf(p, organizationId, projectId)
  {
    q := Query(organizationId, projectId, None, None, None, None);
    if Truthy(p.userId) {
      q := q.(userId := p.userId);
    }
    if Truthy(p.eventName) {
      q := q.(eventName := p.eventName);
    }
    if Truthy(p.sessionId) {
      q := q.(sessionId := p.sessionId);
    }
    if DateTruthy(p.startDate) || DateTruthy(p.endDate) {
      var range := TimeRange(None, None);
      if DateTruthy(p.startDate) {
        range := range.(gte := p.startDate);
      }
      if DateTruthy(p.endDate) {
        range := range.(lte := p.endDate);
      }
      q := q.(timestamp := Some(range));
    }
  }

  /** A query after Mongoose cast it to the schema's types. */
  datatype Filter = Filter(
    organizationId: ObjectId,
    projectId: ObjectId,
    userId: Option<string>,
    eventName: Option<string>,
    sessionId: Option<string>,
    from: Option<int>,
    to: Option<int>)

  /** A bound that is an Invalid Date fails the cast. */
  function CastBound(d: Option<DateParam>): Option<Option<int>> {
    match d
    case None => Some(None)
    case Some(dp) => if dp.parsed.Some? then Some(Some(dp.parsed.value)) else None
  }

  /** Mongoose's cast of the query: `None` is a CastError. The tenant ids
      become ObjectIds, the string filters go through the paths' trim
      setters, and the date bounds become times. */
  function CompileQuery(q: Query): (r: Option<Filter>)
    ensures var range := q.timestamp.GetOr(TimeRange(None, None));
      r.Some? <==> && Cast(q.organizationId).Some? && Cast(q.projectId).Some?
                   && (range.gte.Some? ==> range.gte.value.parsed.Some?)
                   && (range.lte.Some? ==> range.lte.value.parsed.Some?)
    ensures r.Some? ==> Some(r.value.organizationId) == Cast(q.organizationId)
                        && Some(r.value.projectId) == Cast(q.projectId)
    ensures r.Some? ==> && (r.value.userId.Some? <==> q.userId.Some?)
                        && (r.value.userId.Some? ==> r.value.userId.value == Trim(q.userId.value))
                        && (r.value.eventName.Some? <==> q.eventName.Some?)
                        && (r.value.eventName.Some? ==> r.value.eventName.value == Trim(q.eventName.value))
                        && (r.value.sessionId.Some? <==> q.sessionId.Some?)
                        && (r.value.sessionId.Some? ==> r.value.sessionId.value == Trim(q.sessionId.value))
    ensures var range := q.timestamp.GetOr(TimeRange(None, None));
      r.Some? ==> && (r.value.from.Some? <==> range.gte.Some?)
                  && (r.value.from.Some? ==> r.value.from == range.gte.value.parsed)
                  && (r.value.to.Some? <==> range.lte.Some?)
                  && (r.value.to.Some? ==> r.value.to == range.lte.value.parsed)
  {
    var org := Cast(q.organizationId);
    var proj := Cast(q.projectId);
    var range := q.timestamp.GetOr(TimeRange(None, None));
    var from := CastBound(range.gte);
    var to := CastBound(range.lte);
    if org.None? || proj.None? || from.None? || to.None? then None
    else Some(Filter(org.value, proj.value, TrimOptional(q.userId), TrimOptional(q.eventName),
                     TrimOptional(q.sessionId), from.value, to.value))
  }

  /** The document-side evaluation of a cast filter: every field present must
      match, and the bounds are inclusive. */
  predicate Matches(f: Filter, e: Event) {
    && e.organizationId == f.organizationId
    && e.projectId == f.projectId
    && (f.userId.Some? ==> e.userId == f.userId.value)
    && (f.eventName.Some? ==> e.eventName == f.eventName.value)
    && (f.sessionId.Some? ==> e.sessionId == f.sessionId)
    && (f.from.Some? ==> f.from.value <= e.timestamp)
    && (f.to.Some? ==> e.timestamp <= f.to.value)
  }

  /** Every given date parameter is a valid date. */
  predicate DatesParse(p: ListParams) {
    && (DateTruthy(p.startDate) ==> p.startDate.value.parsed.Some?)
    && (DateTruthy(p.endDate) ==> p.endDate.value.parsed.Some?)
  }

  /** What the listing promises, read off the parameters: the caller's
      tenant, each non-empty string parameter, trimmed, as an exact match,
      and each given date as an inclusive bound. A parameter of spaces only
      is given but trims to the empty string, which no stored event has. */
  predicate Criteria(p: ListParams, organizationId: ObjectId, projectId: ObjectId, e: Event)
    requires DatesParse(p)
  {
    && e.organizationId == organizationId && e.projectId == projectId
    && (Truthy(p.userId) ==> e.userId == Trim(p.userId.value))
    && (Truthy(p.eventName) ==> e.eventName == Trim(p.eventName.value))
    && (Truthy(p.sessionId) ==> e.sessionId == Some(Trim(p.sessionId.value)))
    && (DateTruthy(p.startDate) ==> p.startDate.value.parsed.value <= e.timestamp)
    && (DateTruthy(p.endDate) ==> e.timestamp <= p.endDate.value.parsed.value)
  }

  /** The query casts exactly when the tenant ids are ObjectIds and the given
      dates are valid, and it then selects exactly the events meeting the
      criteria. */
  lemma QueryMeaning(p: ListParams, organizationId: string, projectId: string)
    ensures var f := CompileQuery(QueryOf(p, organizationId, projectId));
      f.Some? <==> Cast(organizationId).Some? && Cast(projectId).Some? && DatesParse(p)
    ensures var f := CompileQuery(QueryOf(p, organizationId, projectId));
      f.Some? ==> forall e :: Matches(f.value, e) <==>
                    Criteria(p, Cast(organizationId).value, Cast(projectId).value, e)
  {
  }

  /** The matching events, in collection order. */
  function Select(records: seq<Event>, f: Filter): (r: seq<Event>)
    ensures |r| <= |records|
    ensures forall e :: e in r <==> e in records && Matches(f, e)
    ensures forall e :: multiset(r)[e] == (if Matches(f, e) then multiset(records)[e] else 0)
  {
    if records == [] then []
    else
      assert records == [records[0]] + records[1..];
      (if Matches(f, records[0]) then [records[0]] else []) + Select(records[1..], f)
  }

  /** Newest first: each timestamp at least the next one. */
  predicate SortedDesc(s: seq<Event>) {
    forall i, j :: 0 <= i < j < |s| ==> s[i].timestamp >= s[j].timestamp
  }

  /** `e` placed into a newest-first sequence after every strictly newer event
      and before the rest, events as new as it included. */
  function InsertDesc(e: Event, s: seq<Event>): (r: seq<Event>)
    ensures multiset(r) == multiset(s) + multiset{e}
    ensures |r| == |s| + 1
  {
    if s == [] || s[0].timestamp <= e.timestamp then [e] + s
    else
      assert s == [s[0]] + s[1..];
      [s[0]] + InsertDesc(e, s[1..])
  }

  lemma {:induction false} InsertDescSorted(e: Event, s: seq<Event>)
    requires SortedDesc(s)
    ensures SortedDesc(InsertDesc(e, s))
  {
    if !(s == [] || s[0].timestamp <= e.timestamp) {
      var tail := s[1..];
      assert SortedDesc(tail) by {
        forall i, j | 0 <= i < j < |tail| ensures tail[i].timestamp >= tail[j].timestamp {
          assert tail[i] == s[i + 1] && tail[j] == s[j + 1];
        }
      }
      InsertDescSorted(e, tail);
      var r := InsertDesc(e, s);
      var t := InsertDesc(e, tail);
      assert r == [s[0]] + t;
      forall k | 0 <= k < |t| ensures s[0].timestamp >= t[k].timestamp {
        assert t[k] in multiset(t);
        assert t[k] in multiset(tail) + multiset{e};
        if t[k] != e {
          assert t[k] in tail;
          var m :| 0 <= m < |tail| && tail[m] == t[k];
          assert tail[m] == s[m + 1];
        }
      }
    }
  }

  /** `sort({ timestamp: -1 })`: newest first; events with equal timestamps
      keep their collection order. */
  function SortDesc(s: seq<Event>): (r: seq<Event>)
    ensures multiset(r) == multiset(s) && |r| == |s|
  {
    if s == [] then []
    else
      assert s == [s[0]] + s[1..];
      InsertDesc(s[0], SortDesc(s[1..]))
  }

  /** Two events with the same timestamp come out in their collection order. */
  lemma SortDescKeepsTieOrder(a: Event, b: Event)
    requires a.timestamp == b.timestamp
    ensures SortDesc([a, b]) == [a, b]
  {
    assert [a, b][1..] == [b];
  }

  /** The sort puts the events newest first. */
  lemma {:induction false} SortDescSorted(s: seq<Event>)
    ensures SortedDesc(SortDesc(s))
  {
    if s != [] {
      SortDescSorted(s[1..]);
      InsertDescSorted(s[0], SortDesc(s[1..]));
    }
  }

  /** `Math.ceil(count / limit)` for a non-zero integer limit. */
  function TotalPages(count: nat, limit: int): (r: int)
    requires limit != 0
    ensures limit > 0 ==> (r - 1) * limit < count <= r * limit
    ensures limit < 0 ==> r <= 0 && r * limit <= count < (r - 1) * limit
  {
    if limit > 0 then (count + limit - 1) / limit else -(count / -limit)
  }

  datatype Pagination = Pagination(currentPage: int, limit: int, totalPages: int, hasNext: bool, hasPrev: bool)

  datatype ListPage = ListPage(totalCount: nat, events: seq<Event>, pagination: Pagination, message: string)

  function ListMessage(totalCount: nat): (m: string)
    ensures m == "No events found" <==> totalCount == 0
  {
    if totalCount == 0 then "No events found" else "Events fetched successfully"
  }

  /** `listEvents` on the collection's records. */
  function ListEvents(records: seq<Event>, p: ListParams, tenant: Tenant): (r: Result<ListPage>)
    ensures !HasTenant(tenant) ==> r == Err(ApiError(401, "Authentication required"))
    ensures HasTenant(tenant) && r.Err? ==> r.error == ApiError(500, "Error fetching events")
    ensures r.Ok? ==> |r.value.events| <= r.value.totalCount <= |records|
    ensures r.Ok? ==> |r.value.events| <= Abs(r.value.pagination.limit) && r.value.pagination.limit <= MaxLimit
    ensures r.Ok? ==> r.value.pagination.currentPage != 0
  {
    if !HasTenant(tenant) then Err(ApiError(401, "Authentication required"))
    else
      var pageNum := PageNum(p.page);
      var limitNum := LimitNum(p.limit);
      var skip := SkipOf(pageNum, limitNum);
      match CompileQuery(QueryOf(p, tenant.organizationId.value, tenant.projectId.value))
      case None => Err(ApiError(500, "Error fetching events"))
      case Some(f) =>
        var matching := Select(records, f);
        var totalCount := |matching|;
        match Window(SortDesc(matching), skip, limitNum)
        case None => Err(ApiError(500, "Error fetching events"))
        case Some(events) =>
          var totalPages := TotalPages(totalCount, limitNum);
          Ok(ListPage(totalCount, events,
                      Pagination(pageNum, limitNum, totalPages, pageNum < totalPages, pageNum > 1),
                      ListMessage(totalCount)))
  }

  /** A listed page: the caller's events meeting every criterion, newest
      first, counted by the same filter; the page is the slice of the sorted
      matches from the skip on, as long as the limit allows and the matches
      last, with the pagination computed from the count; and the page fails
      with 500 exactly when a date is invalid, a tenant id is not an
      ObjectId, or the skip is negative. */
  lemma ListEventsSpec(records: seq<Event>, p: ListParams, tenant: Tenant)
    requires HasTenant(tenant)
    ensures var org := Cast(tenant.organizationId.value);
      var proj := Cast(tenant.projectId.value);
      var r := ListEvents(records, p, tenant);
      && (r.Err? <==> org.None? || proj.None? || !DatesParse(p)
                      || SkipOf(PageNum(p.page), LimitNum(p.limit)) < 0)
      && (r.Err? ==> r.error == ApiError(500, "Error fetching events"))
      && (r.Ok? ==>
            && SortedDesc(r.value.events)
            && |r.value.events| <= Abs(r.value.pagination.limit)
            && (forall e :: e in r.value.events ==> e in records && Criteria(p, org.value, proj.value, e))
            && r.value.totalCount == |Select(records, CompileQuery(QueryOf(p, tenant.organizationId.value, tenant.projectId.value)).value)|
            && (r.value.message == "No events found" <==> r.value.totalCount == 0))
    ensures var r := ListEvents(records, p, tenant);
      var pageNum := PageNum(p.page);
      var limitNum := LimitNum(p.limit);
      var skip := SkipOf(pageNum, limitNum);
      r.Ok? ==>
        var sorted := SortDesc(Select(records, CompileQuery(QueryOf(p, tenant.organizationId.value, tenant.projectId.value)).value));
        var left := if skip <= |sorted| then |sorted| - skip else 0;
        && |r.value.events| == (if Abs(limitNum) >= left then left else Abs(limitNum))
        && (forall k :: 0 <= k < |r.value.events| ==> skip + k < |sorted| && r.value.events[k] == sorted[skip + k])
        && r.value.pagination == Pagination(pageNum, limitNum, TotalPages(r.value.totalCount, limitNum),
                                            pageNum < TotalPages(r.value.totalCount, limitNum), pageNum > 1)
  {
    var org := tenant.organizationId.value;
    var proj := tenant.projectId.value;
    QueryMeaning(p, org, proj);
    var r := ListEvents(records, p, tenant);
    if r.Ok? {
      var f := CompileQuery(QueryOf(p, org, proj)).value;
      var skip := SkipOf(PageNum(p.page), LimitNum(p.limit));
      SortedPage(Select(records, f), skip, LimitNum(p.limit));
      WindowFull(SortDesc(Select(records, f)), skip, LimitNum(p.limit));
    }
  }

  /** A window of the sorted selection is newest first and holds only
      selected events. */
  lemma SortedPage(selected: seq<Event>, skip: int, limit: int)
    requires skip >= 0
    ensures var page := Window(SortDesc(selected), skip, limit).value;
      SortedDesc(page) && forall e :: e in page ==> e in selected
  {
    var sorted := SortDesc(selected);
    SortDescSorted(selected);
    var page := Window(sorted, skip, limit).value;
    forall i, j | 0 <= i < j < |page| ensures page[i].timestamp >= page[j].timestamp {
      assert page[i] == sorted[skip + i] && page[j] == sorted[skip + j];
    }
    forall e | e in page ensures e in selected {
      var k :| 0 <= k < |page| && page[k] == e;
      assert sorted[skip + k] == e;
      assert e in multiset(sorted);
    }
  }

  /** With a page of at least 1 and a positive limit, there is a next page
      exactly when the events before the end of this page are fewer than the
      total, and a previous page exactly when this is not the first. */
  lemma HasNextIff(pageNum: int, limit: int, count: nat)
    requires pageNum >= 1 && limit > 0
    ensures pageNum < TotalPages(count, limit) <==> pageNum * limit < count
  {
    var t := TotalPages(count, limit);
    if pageNum < t {
      MulMonotone(pageNum, t - 1, limit);
    } else {
      MulMonotone(t, pageNum, limit);
    }
  }

  lemma MulMonotone(a: int, b: int, c: int)
    requires a <= b && c > 0
    ensures a * c <= b * c
  {
    assert b * c - a * c == (b - a) * c;
  }

  /** The events of a tenant, in collection order. */
  function TenantView(records: seq<Event>, organizationId: ObjectId, projectId: ObjectId): (r: seq<Event>)
    ensures forall e :: e in r <==> e in records && e.organizationId == organizationId && e.projectId == projectId
  {
    if records == [] then []
    else (if records[0].organizationId == organizationId && records[0].projectId == projectId
          then [records[0]] else [])
         + TenantView(records[1..], organizationId, projectId)
  }

  lemma {:induction false} SelectTenantView(records: seq<Event>, f: Filter)
    ensures Select(TenantView(records, f.organizationId, f.projectId), f) == Select(records, f)
  {
    if records != [] {
      SelectTenantView(records[1..], f);
      var e := records[0];
      var view := TenantView(records, f.organizationId, f.projectId);
      var rest := TenantView(records[1..], f.organizationId, f.projectId);
      if e.organizationId == f.organizationId && e.projectId == f.projectId {
        assert view == [e] + rest;
        assert view[1..] == rest;
      } else {
        assert view == rest;
      }
    }
  }

  /** The listing depends only on the caller's own events: other tenants'
      events neither appear nor count. */
  lemma ListEventsTenantIsolation(records: seq<Event>, p: ListParams, tenant: Tenant)
    requires HasTenant(tenant)
    requires Cast(tenant.organizationId.value).Some? && Cast(tenant.projectId.value).Some?
    ensures ListEvents(records, p, tenant) ==
            ListEvents(TenantView(records, Cast(tenant.organizationId.value).value,
                                  Cast(tenant.projectId.value).value), p, tenant)
  {
    var f := CompileQuery(QueryOf(p, tenant.organizationId.value, tenant.projectId.value));
    if f.Some? {
      SelectTenantView(records, f.value);
    }
  }

  /** The filter of `findOne`/`findOneAndDelete` after the cast: `None` is a
      CastError of the `:id` parameter or of a tenant id. */
  function IdFilterOf(id: string, tenant: Tenant): Option<IdFilter>
    requires HasTenant(tenant)
  {
    var i := Cast(id);
    var org := Cast(tenant.organizationId.value);
    var proj := Cast(tenant.projectId.value);
    if i.None? || org.None? || proj.None? then None
    else Some(IdFilter(i.value, org.value, proj.value))
  }

  /** `getEventById` on the collection's records. */
  function GetEventById(records: seq<Event>, id: string, tenant: Tenant): (r: Result<Event>)
    ensures !HasTenant(tenant) ==> r == Err(ApiError(401, "Authentication required"))
    ensures HasTenant(tenant) && IdFilterOf(id, tenant).None? ==> r == Err(ApiError(500, CastErrorMessage))
    ensures r.Ok? ==> r.value in records && MatchesId(IdFilterOf(id, tenant).value, r.value)
    ensures HasTenant(tenant) && IdFilterOf(id, tenant).Some? ==>
              (r == Err(ApiError(404, "Event not found")) <==>
               forall e :: e in records ==> !MatchesId(IdFilterOf(id, tenant).value, e))
  {
    if !HasTenant(tenant) then Err(ApiError(401, "Authentication required"))
    else match IdFilterOf(id, tenant)
      case None => Err(ApiError(500, CastErrorMessage))
      case Some(f) =>
        match FindOne(records, f)
        case None => Err(ApiError(404, "Event not found"))
        case Some(e) => Ok(e)
  }

  /** Another tenant's event is invisible: when the only events carrying the
      id belong to other tenants, the answer is the same 404 as for an id
      that does not exist. */
  lemma GetOtherTenantsEventIsNotFound(records: seq<Event>, id: string, tenant: Tenant)
    requires HasTenant(tenant) && IdFilterOf(id, tenant).Some?
    requires forall e :: e in records && e.id == Cast(id).value ==>
               Some(e.organizationId) != Cast(tenant.organizationId.value)
               || Some(e.projectId) != Cast(tenant.projectId.value)
    ensures GetEventById(records, id, tenant) == Err(ApiError(404, "Event not found"))
  {
  }

  /** `deleteEvent` on the collection's records: the records afterwards and
      the response. */
  function DeleteEventOf(records: seq<Event>, id: string, tenant: Tenant): (r: (seq<Event>, Result<Event>))
    ensures !HasTenant(tenant) ==> r == (records, Err(ApiError(401, "Authentication required")))
    ensures r.1.Err? ==> r.0 == records
    ensures HasTenant(tenant) && IdFilterOf(id, tenant).None? ==> r.1 == Err(ApiError(500, CastErrorMessage))
    ensures HasTenant(tenant) && IdFilterOf(id, tenant).Some? && r.1.Err? ==>
              r.1 == Err(ApiError(404, "Event not found or already deleted"))
    ensures r.1.Ok? ==> && HasTenant(tenant) && IdFilterOf(id, tenant).Some?
                        && r.1.value in records && MatchesId(IdFilterOf(id, tenant).value, r.1.value)
                        && |r.0| + 1 == |records|
  {
    if !HasTenant(tenant) then (records, Err(ApiError(401, "Authentication required")))
    else match IdFilterOf(id, tenant)
      case None => (records, Err(ApiError(500, CastErrorMessage)))
      case Some(f) =>
        match FirstMatch(records, f)
        case None => (records, Err(ApiError(404, "Event not found or already deleted")))
        case Some(k) => (RemoveAt(records, k), Ok(records[k]))
  }

  /** `deleteEvent` against the events collection. */
  method DeleteEvent(store: EventCollection, id: string, tenant: Tenant) returns (r: Result<Event>)
    requires store.Valid()
    modifies store
    ensures store.Valid()
    ensures (store.records, r) == DeleteEventOf(old(store.records), id, tenant)
  {
    if !HasTenant(tenant) {
      return Err(ApiError(401, "Authentication required"));
    }
    var f := IdFilterOf(id, tenant);
    if f.None? {
      return Err(ApiError(500, CastErrorMessage));
    }
    var deleted := store.FindOneAndDelete(f.value);
    if deleted.None? {
      return Err(ApiError(404, "Event not found or already deleted"));
    }
    r := Ok(deleted.value);
  }

  /** Delete removes exactly the event get would return, and leaves every
      other event as it was; when get finds nothing, delete changes nothing.
      Afterwards the event can no longer be found. */
  lemma DeleteRemovesExactlyThatEvent(records: seq<Event>, id: string, tenant: Tenant)
    requires ValidStore(records)
    ensures var (after, r) := DeleteEventOf(records, id, tenant);
      var g := GetEventById(records, id, tenant);
      && (r.Ok? <==> g.Ok?)
      && (g == Err(ApiError(404, "Event not found")) <==> r == Err(ApiError(404, "Event not found or already deleted")))
      && (r.Ok? ==> r.value == g.value
                    && multiset(after) + multiset{r.value} == multiset(records)
                    && (forall e :: e in after <==> e in records && e != r.value)
                    && GetEventById(after, id, tenant) == Err(ApiError(404, "Event not found")))
      && (r.Err? ==> after == records)
  {
    var (after, r) := DeleteEventOf(records, id, tenant);
    if r.Ok? {
      var f := IdFilterOf(id, tenant).value;
      var k := FirstMatch(records, f).value;
      RemoveAtKeepsOthers(records, k);
      forall e | e in after ensures e.id != f.id {
        var m :| 0 <= m < |records| && records[m] == e;
        assert m != k;
        assert records[m].id != records[k].id;
      }
    }
  }
}
