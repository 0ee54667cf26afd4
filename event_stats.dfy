/** `getEventStats` of backend/src/controller/event.controller.ts: the
    aggregation of a tenant's events into a count, the numbers of distinct
    users and event names, and the newest and oldest timestamps. */
module EventStats {
  import opened Wrappers
  import opened ObjectIds
  import opened EventModel
  import opened EventNormalize
  import opened EventQuery

  /** The `$project` stage's output; `None` is `null`. */
  datatype Stats = Stats(
    totalEvents: nat,
    uniqueUserCount: nat,
    uniqueEventCount: nat,
    latestEvent: Option<int>,
    oldestEvent: Option<int>)

  /** The handler's fallback when the pipeline yields no document. */
  const EmptyStats: Stats := Stats(0, 0, 0, None, None)

  /** `$addToSet: "$userId"`. */
  function UserIds(events: seq<Event>): (r: set<string>)
    ensures forall u :: u in r <==> exists k :: 0 <= k < |events| && events[k].userId == u
  {
    if events == [] then {}
    else
      var rest := UserIds(events[1..]);
      assert forall k :: 1 <= k < |events| ==> events[k] == events[1..][k - 1];
      {events[0].userId} + rest
  }

  /** `$addToSet: "$eventName"`. */
  function EventNames(events: seq<Event>): (r: set<string>)
    ensures forall n :: n in r <==> exists k :: 0 <= k < |events| && events[k].eventName == n
  {
    if events == [] then {}
    else
      var rest := EventNames(events[1..]);
      assert forall k :: 1 <= k < |events| ==> events[k] == events[1..][k - 1];
      {events[0].eventName} + rest
  }

  /** There are no more distinct users or event names than events. */
  lemma {:induction false} DistinctAtMostTotal(events: seq<Event>)
    ensures |UserIds(events)| <= |events| && |EventNames(events)| <= |events|
  {
    if events != [] {
      DistinctAtMostTotal(events[1..]);
      assert UserIds(events) == {events[0].userId} + UserIds(events[1..]);
      assert EventNames(events) == {events[0].eventName} + EventNames(events[1..]);
    }
  }

  /** `$max: "$timestamp"`: the timestamp of some event, and no event is newer. */
  function MaxTimestamp(events: seq<Event>): (m: int)
    requires events != []
    ensures exists k :: 0 <= k < |events| && events[k].timestamp == m
    ensures forall k :: 0 <= k < |events| ==> events[k].timestamp <= m
  {
    if |events| == 1 then events[0].timestamp
    else
      var rest := MaxTimestamp(events[1..]);
      assert forall k :: 1 <= k < |events| ==> events[k] == events[1..][k - 1];
      if events[0].timestamp >= rest then events[0].timestamp else rest
  }

  /** `$min: "$timestamp"`: the timestamp of some event, and no event is older. */
  function MinTimestamp(events: seq<Event>): (m: int)
    requires events != []
    ensures exists k :: 0 <= k < |events| && events[k].timestamp == m
    ensures forall k :: 0 <= k < |events| ==> m <= events[k].timestamp
  {
    if |events| == 1 then events[0].timestamp
    else
      var rest := MinTimestamp(events[1..]);
      assert forall k :: 1 <= k < |events| ==> events[k] == events[1..][k - 1];
      if events[0].timestamp <= rest then events[0].timestamp else rest
  }

  /** The `$group` and `$project` stages over the matched events, and the
      handler's `stats[0] || {...}` fallback: with nothing matched the group
      stage emits no document. */
  function Summarize(events: seq<Event>): (r: Stats)
    ensures r.totalEvents == |events|
    ensures r.uniqueUserCount <= r.totalEvents && r.uniqueEventCount <= r.totalEvents
    ensures r == EmptyStats <==> events == []
    ensures r.latestEvent.Some? <==> events != []
    ensures r.oldestEvent.Some? <==> events != []
    ensures forall e :: e in events ==> && r.latestEvent.Some? && r.oldestEvent.Some?
                                        && r.oldestEvent.value <= e.timestamp <= r.latestEvent.value
  {
    DistinctAtMostTotal(events);
    if events == [] then EmptyStats
    else Stats(|events|, |UserIds(events)|, |EventNames(events)|,
               Some(MaxTimestamp(events)), Some(MinTimestamp(events)))
  }

  /** A `$match` equality: the aggregation pipeline is not cast to the
      schema, so a string never equals a stored ObjectId. */
  predicate BsonEquals(v: BsonValue, stored: ObjectId) {
    v.BObjectId? && v.oid == stored
  }

  /** The `$match` stage on the tenant fields. */
  function MatchStage(records: seq<Event>, organizationId: BsonValue, projectId: BsonValue): (r: seq<Event>)
    ensures forall e :: e in r <==> e in records && BsonEquals(organizationId, e.organizationId)
                                                 && BsonEquals(projectId, e.projectId)
    ensures |r| <= |records|
  {
    if records == [] then []
    else (if BsonEquals(organizationId, records[0].organizationId) && BsonEquals(projectId, records[0].projectId)
          then [records[0]] else [])
         + MatchStage(records[1..], organizationId, projectId)
  }

  /** The handler as written: the tenant ids are strings (as the API-key
      middleware stores them) and go into `$match` uncast. */
  function StatsAsWritten(records: seq<Event>, tenant: Tenant): (r: Result<Stats>)
    ensures r.Err? <==> !HasTenant(tenant)
    ensures r.Err? ==> r.error == ApiError(401, "Authentication required")
    ensures r.Ok? ==> r.value.totalEvents <= |records|
  {
    if !HasTenant(tenant) then Err(ApiError(401, "Authentication required"))
    else Ok(Summarize(MatchStage(records, BString(tenant.organizationId.value), BString(tenant.projectId.value))))
  }

  /** As written, the `$match` stage lets no stored event through. */
  lemma {:induction false} StringMatchIsEmpty(records: seq<Event>, organizationId: string, projectId: string)
    ensures MatchStage(records, BString(organizationId), BString(projectId)) == []
  {
    if records != [] {
      StringMatchIsEmpty(records[1..], organizationId, projectId);
    }
  }

  /** As written, the statistics are the empty fallback whatever the
      collection holds. */
  lemma StatsAsWrittenAlwaysEmpty(records: seq<Event>, tenant: Tenant)
    requires HasTenant(tenant)
    ensures StatsAsWritten(records, tenant) == Ok(EmptyStats)
  {
    StringMatchIsEmpty(records, tenant.organizationId.value, tenant.projectId.value);
  }

  /** An input showing it: a tenant with one stored event is told it has
      none, where the cast pipeline counts that event. */
  lemma StatsAsWrittenMissesStoredEvent(e: Event)
    ensures var t := Tenant(Some(ToString(e.organizationId)), Some(ToString(e.projectId)));
      && StatsAsWritten([e], t) == Ok(EmptyStats)
      && GetEventStats([e], t).Ok? && GetEventStats([e], t).value.totalEvents == 1
  {
    var t := Tenant(Some(ToString(e.organizationId)), Some(ToString(e.projectId)));
    StatsAsWrittenAlwaysEmpty([e], t);
    CastToString(e.organizationId);
    CastToString(e.projectId);
    assert MatchStage([e], BObjectId(e.organizationId), BObjectId(e.projectId)) == [e];
  }

  /** The handler as intended: the tenant ids are cast to ObjectIds before
      the pipeline runs; an id that does not cast fails the request. */
  function GetEventStats(records: seq<Event>, tenant: Tenant): (r: Result<Stats>)
    ensures !HasTenant(tenant) ==> r == Err(ApiError(401, "Authentication required"))
    ensures HasTenant(tenant) ==>
              (r == Err(ApiError(500, "Error fetching event statistics")) <==>
               Cast(tenant.organizationId.value).None? || Cast(tenant.projectId.value).None?)
    ensures r.Ok? ==> r.value.totalEvents <= |records|
    ensures r.Ok? ==> forall e :: e in records && Some(e.organizationId) == Cast(tenant.organizationId.value)
                                  && Some(e.projectId) == Cast(tenant.projectId.value) ==>
                         && r.value.latestEvent.Some? && r.value.oldestEvent.Some?
                         && r.value.oldestEvent.value <= e.timestamp <= r.value.latestEvent.value
  {
    if !HasTenant(tenant) then Err(ApiError(401, "Authentication required"))
    else
      var org := Cast(tenant.organizationId.value);
      var proj := Cast(tenant.projectId.value);
      if org.None? || proj.None? then Err(ApiError(500, "Error fetching event statistics"))
      else Ok(Summarize(MatchStage(records, BObjectId(org.value), BObjectId(proj.value))))
  }

  lemma {:induction false} MatchStageIsTenantView(records: seq<Event>, organizationId: ObjectId, projectId: ObjectId)
    ensures MatchStage(records, BObjectId(organizationId), BObjectId(projectId)) == TenantView(records, organizationId, projectId)
  {
    if records != [] {
      MatchStageIsTenantView(records[1..], organizationId, projectId);
    }
  }

  /** The summary of some events: their number; the numbers of distinct
      users and event names, each at most that number; the newest and the
      oldest of their timestamps; and 0, 0, 0, null, null for no events. */
  lemma SummarizeSpec(events: seq<Event>)
    ensures var s := Summarize(events);
      && s.totalEvents == |events|
      && s.uniqueUserCount == |UserIds(events)| <= s.totalEvents
      && s.uniqueEventCount == |EventNames(events)| <= s.totalEvents
      && (s.latestEvent.Some? <==> events != []) && (s.oldestEvent.Some? <==> events != [])
      && (events == [] ==> s == EmptyStats)
      && (events != [] ==> (forall e :: e in events ==> s.oldestEvent.value <= e.timestamp <= s.latestEvent.value)
                           && (exists e :: e in events && e.timestamp == s.latestEvent.value)
                           && (exists e :: e in events && e.timestamp == s.oldestEvent.value))
  {
    DistinctAtMostTotal(events);
    if events != [] {
      var mx := MaxTimestamp(events);
      var mn := MinTimestamp(events);
      var i :| 0 <= i < |events| && events[i].timestamp == mx;
      var j :| 0 <= j < |events| && events[j].timestamp == mn;
      assert events[i] in events && events[j] in events;
    }
  }

  /** The corrected handler summarises exactly the caller's own events. */
  lemma GetEventStatsSpec(records: seq<Event>, tenant: Tenant)
    requires HasTenant(tenant)
    ensures var org := Cast(tenant.organizationId.value);
      var proj := Cast(tenant.projectId.value);
      && (GetEventStats(records, tenant).Ok? <==> org.Some? && proj.Some?)
      && (GetEventStats(records, tenant).Ok? ==>
            GetEventStats(records, tenant).value == Summarize(TenantView(records, org.value, proj.value)))
  {
    var org := Cast(tenant.organizationId.value);
    var proj := Cast(tenant.projectId.value);
    if org.Some? && proj.Some? {
      MatchStageIsTenantView(records, org.value, proj.value);
    }
  }

  /** The statistics depend only on the caller's own events. */
  lemma GetEventStatsTenantIsolation(records: seq<Event>, tenant: Tenant)
    requires HasTenant(tenant)
    requires Cast(tenant.organizationId.value).Some? && Cast(tenant.projectId.value).Some?
    ensures var org := Cast(tenant.organizationId.value).value;
      var proj := Cast(tenant.projectId.value).value;
      GetEventStats(records, tenant) == GetEventStats(TenantView(records, org, proj), tenant)
  {
    var org := Cast(tenant.organizationId.value).value;
    var proj := Cast(tenant.projectId.value).value;
    MatchStageIsTenantView(records, org, proj);
    MatchStageIsTenantView(TenantView(records, org, proj), org, proj);
    TenantViewIdempotent(records, org, proj);
  }

  lemma {:induction false} TenantViewIdempotent(records: seq<Event>, organizationId: ObjectId, projectId: ObjectId)
    ensures TenantView(TenantView(records, organizationId, projectId), organizationId, projectId)
            == TenantView(records, organizationId, projectId)
  {
    if records != [] {
      TenantViewIdempotent(records[1..], organizationId, projectId);
      var view := TenantView(records, organizationId, projectId);
      var rest := TenantView(records[1..], organizationId, projectId);
      if records[0].organizationId == organizationId && records[0].projectId == projectId {
        assert view == [records[0]] + rest;
        assert view[1..] == rest;
      } else {
        assert view == rest;
      }
    }
  }
}
