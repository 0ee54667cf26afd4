/** `ingestEvents` of backend/src/controller/event.controller.ts: admission of
    the batch, normalisation of every event, the unordered `insertMany`, and
    the reconciliation of its outcome into a 201 or a 207 response. */
module EventIngest {
  import opened Wrappers
  import opened ObjectIds
  import opened EventModel
  import opened EventStore
  import opened EventNormalize

  const MaxBatch: nat := 1000

  /** The body of a successful response: 201 when every write succeeded,
      207 when `insertMany` failed with duplicate-key errors. */
  datatype IngestReport =
    | Created(ingested: int, total: nat, events: seq<Event>)
    | Partial(ingested: int, total: nat, duplicates: nat)

  function StatusOf(r: IngestReport): int {
    if r.Created? then 201 else 207
  }

  /** The checks before any event is looked at: the batch must be a non-empty
      array of at most 1000 events, and only then is the tenant checked. */
  function Admit(events: Option<seq<RawEvent>>, tenant: Tenant): (r: Result<seq<RawEvent>>)
    ensures r.Ok? <==> events.Some? && 0 < |events.value| <= MaxBatch && HasTenant(tenant)
    ensures r.Ok? ==> r.value == events.value
    ensures events.None? || events.value == [] ==>
              r == Err(ApiError(400, "Events array is required and cannot be empty"))
    ensures events.Some? && |events.value| > MaxBatch ==>
              r == Err(ApiError(400, "Maximum 1000 events allowed per request"))
    ensures events.Some? && 0 < |events.value| <= MaxBatch && !HasTenant(tenant) ==>
              r == Err(ApiError(401, "Authentication required - organizationId/projectId missing"))
  {
    if events.None? || events.value == [] then
      Err(ApiError(400, "Events array is required and cannot be empty"))
    else if |events.value| > MaxBatch then
      Err(ApiError(400, "Maximum 1000 events allowed per request"))
    else if !HasTenant(tenant) then
      Err(ApiError(401, "Authentication required - organizationId/projectId missing"))
    else
      Ok(events.value)
  }

  /** The response built from the per-document outcomes of `insertMany`.
      Without a duplicate the call resolves with the inserted documents;
      with one it rejects with code 11000 and one write error per duplicate,
      and the handler counts every other submitted event as ingested. */
  function Reconcile(outcomes: seq<InsertOutcome>, total: nat): (r: IngestReport)
    ensures r.total == total
    ensures r.Partial? <==> CountDuplicates(outcomes) > 0
    ensures r.Partial? ==> r.duplicates == CountDuplicates(outcomes) && r.ingested + r.duplicates == total
    ensures r.Created? ==> r.events == InsertedEvents(outcomes) && r.ingested == |r.events|
  {
    var duplicates := CountDuplicates(outcomes);
    if duplicates == 0 then
      Created(|InsertedEvents(outcomes)|, total, InsertedEvents(outcomes))
    else
      Partial(total - duplicates, total, duplicates)
  }

  predicate Supplied(events: Option<seq<RawEvent>>, rand: seq<Block>, ids: seq<ObjectId>) {
    events.Some? ==> |rand| == |events.value| && |ids| == |events.value|
  }

  /** The whole handler on the collection's records: the records afterwards
      and the response. `rand` holds the random bytes for each event's
      generated id, `ids` the `_id` Mongoose gives each document. */
  function Ingest(records: seq<Event>, events: Option<seq<RawEvent>>, tenant: Tenant, meta: RequestMeta,
                  rand: seq<Block>, ids: seq<ObjectId>, now: int): (r: (seq<Event>, Result<IngestReport>))
    requires Supplied(events, rand, ids)
    ensures r.1.Err? ==> r.0 == records
    ensures r.1.Ok? ==> Admit(events, tenant).Ok? && r.1.value.total == |events.value|
    ensures |records| <= |r.0| && r.0[..|records|] == records
    ensures r.1.Ok? ==> |r.0| - |records| <= r.1.value.total
  {
    match Admit(events, tenant)
    case Err(e) => (records, Err(e))
    case Ok(raws) =>
      match NormalizeAll(raws, tenant.organizationId.value, tenant.projectId.value, meta, rand, now)
      case Err(e) => (records, Err(e))
      case Ok(docs) =>
        var w := InsertAll(records, docs, ids, now);
        (w.records, Ok(Reconcile(w.outcomes, |raws|)))
  }

  /** `ingestEvents` against the events collection. */
  method IngestEvents(store: EventCollection, events: Option<seq<RawEvent>>, tenant: Tenant, meta: RequestMeta,
                      rand: seq<Block>, ids: seq<ObjectId>, now: int) returns (r: Result<IngestReport>)
    requires store.Valid() && Supplied(events, rand, ids) && FreshIds(ids, store.records)
    modifies store
    ensures store.Valid()
    ensures (store.records, r) == Ingest(old(store.records), events, tenant, meta, rand, ids, now)
  {
    if events.None? || |events.value| == 0 {
      return Err(ApiError(400, "Events array is required and cannot be empty"));
    }
    if |events.value| > MaxBatch {
      return Err(ApiError(400, "Maximum 1000 events allowed per request"));
    }
    if !HasTenant(tenant) {
      return Err(ApiError(401, "Authentication required - organizationId/projectId missing"));
    }
    var processed := NormalizeAll(events.value, tenant.organizationId.value, tenant.projectId.value, meta, rand, now);
    if processed.Err? {
      return Err(processed.error);
    }
    var outcomes := store.InsertMany(processed.value, ids, now);
    r := Ok(Reconcile(outcomes, |events.value|));
  }

  /** Nothing is written unless the batch has 1 to 1000 events, the tenant is
      present, and every event has a truthy `userId` and `eventName`; a
      refused batch fails with 400 or 401 and leaves the records as they were. */
  lemma NothingWrittenUnlessAdmitted(records: seq<Event>, events: Option<seq<RawEvent>>, tenant: Tenant,
                                     meta: RequestMeta, rand: seq<Block>, ids: seq<ObjectId>, now: int)
    requires Supplied(events, rand, ids)
    ensures var (after, r) := Ingest(records, events, tenant, meta, rand, ids, now);
      r.Err? <==> !(events.Some? && 0 < |events.value| <= MaxBatch && HasTenant(tenant)
                    && forall i :: 0 <= i < |events.value| ==> Admissible(events.value[i]))
    ensures var (after, r) := Ingest(records, events, tenant, meta, rand, ids, now);
      r.Err? ==> after == records && (r.error.statusCode == 400 || r.error.statusCode == 401)
  {
    if events.Some? && 0 < |events.value| <= MaxBatch && HasTenant(tenant) {
      NormalizeAllOk(events.value, tenant.organizationId.value, tenant.projectId.value, meta, rand, now);
      NormalizeAllFails(events.value, tenant.organizationId.value, tenant.projectId.value, meta, rand, now);
    }
  }

  /** An oversized or empty batch is refused with 400 whatever the tenant:
      the size checks come before the tenant check. */
  lemma SizeCheckedBeforeTenant(records: seq<Event>, events: Option<seq<RawEvent>>, tenant: Tenant,
                                meta: RequestMeta, rand: seq<Block>, ids: seq<ObjectId>, now: int)
    requires Supplied(events, rand, ids)
    requires events.None? || events.value == [] || |events.value| > MaxBatch
    ensures Ingest(records, events, tenant, meta, rand, ids, now).1.Err?
    ensures Ingest(records, events, tenant, meta, rand, ids, now).1.error.statusCode == 400
  {
  }

  /** Every event the batch stores belongs to the caller's tenant, whatever
      the submitted events said. */
  lemma StoredEventsBelongToTenant(records: seq<Event>, events: Option<seq<RawEvent>>, tenant: Tenant,
                                   meta: RequestMeta, rand: seq<Block>, ids: seq<ObjectId>, now: int)
    requires Supplied(events, rand, ids)
    ensures var after := Ingest(records, events, tenant, meta, rand, ids, now).0;
      && |records| <= |after| && after[..|records|] == records
      && forall k :: |records| <= k < |after| ==>
           Some(after[k].organizationId) == Cast(tenant.organizationId.value)
           && Some(after[k].projectId) == Cast(tenant.projectId.value)
  {
    var (after, r) := Ingest(records, events, tenant, meta, rand, ids, now);
    if r.Ok? {
      var raws := events.value;
      var org := tenant.organizationId.value;
      var proj := tenant.projectId.value;
      var docs := NormalizeAll(raws, org, proj, meta, rand, now).value;
      NormalizeAllOk(raws, org, proj, meta, rand, now);
      var w := InsertAll(records, docs, ids, now);
      InsertAllAppends(records, docs, ids, now);
      assert after == records + InsertedEvents(w.outcomes);
      forall k | |records| <= k < |after|
        ensures Some(after[k].organizationId) == Cast(org) && Some(after[k].projectId) == Cast(proj)
      {
        var e := after[k];
        assert e == InsertedEvents(w.outcomes)[k - |records|];
        InsertedEventsFrom(w.outcomes, e);
        var i :| 0 <= i < |w.outcomes| && w.outcomes[i] == Inserted(e);
        OutcomeAt(records, docs, ids, now, i);
        assert Normalize(raws[i], org, proj, meta, rand[i], now) == Ok(docs[i]);
      }
    }
  }

  /** The counts of an accepted batch. A 207 is returned exactly when some
      document hit the unique `eventId` index, and then reports the number
      of such documents as duplicates and every other submitted event as
      ingested: the stored ones and those the schema rejected. A 201 reports
      exactly the events stored. */
  lemma Accounting(records: seq<Event>, events: Option<seq<RawEvent>>, tenant: Tenant,
                   meta: RequestMeta, rand: seq<Block>, ids: seq<ObjectId>, now: int)
    requires Supplied(events, rand, ids)
    ensures var (after, r) := Ingest(records, events, tenant, meta, rand, ids, now);
      r.Ok? ==> && r.value.total == |events.value|
                && |after| - |records| <= r.value.total
                && (r.value.Created? ==> r.value.ingested == |after| - |records|
                                         && after == records + r.value.events)
                && (r.value.Partial? ==> r.value.ingested + r.value.duplicates == r.value.total
                                         && r.value.duplicates > 0
                                         && r.value.ingested >= |after| - |records|)
    ensures var r := Ingest(records, events, tenant, meta, rand, ids, now).1;
      r.Ok? ==>
        var docs := NormalizeAll(events.value, tenant.organizationId.value, tenant.projectId.value, meta, rand, now).value;
        var w := InsertAll(records, docs, ids, now);
        && (r.value.Partial? <==> CountDuplicates(w.outcomes) > 0)
        && (r.value.Partial? ==> r.value.duplicates == CountDuplicates(w.outcomes))
  {
    var (after, r) := Ingest(records, events, tenant, meta, rand, ids, now);
    if r.Ok? {
      var raws := events.value;
      var docs := NormalizeAll(raws, tenant.organizationId.value, tenant.projectId.value, meta, rand, now).value;
      var w := InsertAll(records, docs, ids, now);
      InsertAllAppends(records, docs, ids, now);
      OutcomeCounts(w.outcomes);
    }
  }

  /** Re-sending events that are all stored already changes nothing and is
      answered with a 207 that reports every one of them as a duplicate and
      none as ingested. */
  lemma ResendReportsAllDuplicates(records: seq<Event>, docs: seq<EventDoc>, ids: seq<ObjectId>, now: int)
    requires |ids| == |docs| && docs != []
    requires forall j :: 0 <= j < |docs| ==> PassesValidation(docs[j]) && HasEventId(records, Key(docs[j]))
    ensures var w := InsertAll(records, docs, ids, now);
      w.records == records && Reconcile(w.outcomes, |docs|) == Partial(0, |docs|, |docs|)
  {
    ReinsertIsNoop(records, docs, ids, now);
  }

  predicate AllPassValidation(docs: seq<EventDoc>) {
    forall i :: 0 <= i < |docs| ==> PassesValidation(docs[i])
  }

  /** A 207's `ingested` equals the number of events stored exactly when no
      submitted event was rejected by the schema. */
  lemma PartialIngestedIsStoredIffNoneRejected(records: seq<Event>, events: Option<seq<RawEvent>>, tenant: Tenant,
                                               meta: RequestMeta, rand: seq<Block>, ids: seq<ObjectId>, now: int)
    requires Supplied(events, rand, ids)
    ensures var out := Ingest(records, events, tenant, meta, rand, ids, now);
      out.1.Ok? && out.1.value.Partial? ==>
        (out.1.value.ingested == |out.0| - |records| <==>
         AllPassValidation(NormalizeAll(events.value, tenant.organizationId.value, tenant.projectId.value, meta, rand, now).value))
  {
    var out := Ingest(records, events, tenant, meta, rand, ids, now);
    if out.1.Ok? && out.1.value.Partial? {
      var docs := NormalizeAll(events.value, tenant.organizationId.value, tenant.projectId.value, meta, rand, now).value;
      PartialCounts(records, docs, ids, now);
    }
  }

  lemma PartialCounts(records: seq<Event>, docs: seq<EventDoc>, ids: seq<ObjectId>, now: int)
    requires |ids| == |docs|
    ensures var w := InsertAll(records, docs, ids, now);
      var report := Reconcile(w.outcomes, |docs|);
      report.Partial? ==> (report.ingested == |w.records| - |records| <==> AllPassValidation(docs))
  {
    var w := InsertAll(records, docs, ids, now);
    InsertAllAppends(records, docs, ids, now);
    OutcomeCounts(w.outcomes);
    RejectedCount(records, docs, ids, now);
  }

  /** No outcome is a schema rejection exactly when every document passes
      validation. */
  lemma RejectedCount(records: seq<Event>, docs: seq<EventDoc>, ids: seq<ObjectId>, now: int)
    requires |ids| == |docs|
    ensures CountRejected(InsertAll(records, docs, ids, now).outcomes) == 0 <==> AllPassValidation(docs)
  {
    var outcomes := InsertAll(records, docs, ids, now).outcomes;
    NoRejected(outcomes);
    forall i | 0 <= i < |docs| ensures outcomes[i].ValidationFailed? <==> !PassesValidation(docs[i]) {
      OutcomeAt(records, docs, ids, now, i);
    }
  }

  lemma {:induction false} NoRejected(outcomes: seq<InsertOutcome>)
    ensures CountRejected(outcomes) == 0 <==> forall i :: 0 <= i < |outcomes| ==> !outcomes[i].ValidationFailed?
  {
    if outcomes != [] {
      NoRejected(outcomes[1..]);
      assert forall i :: 1 <= i < |outcomes| ==> outcomes[i] == outcomes[1..][i - 1];
    }
  }
}
