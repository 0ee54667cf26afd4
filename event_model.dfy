/** The Event record of backend/src/models/event.model.ts and what its schema
    does to a document on the way into the collection. */
module EventModel {
  import opened Wrappers
  import opened JsString
  import opened ObjectIds

  /** The open `properties` payload (`Schema.Types.Mixed`); the engine never
      looks inside it. Numbers are integers in this model. */
  datatype Json =
    | JNull
    | JBool(b: bool)
    | JNumber(n: int)
    | JString(s: string)
    | JArray(items: seq<Json>)
    | JObject(fields: map<string, Json>)

  /** JavaScript falsiness of a JSON value. */
  predicate Falsy(j: Json) {
    j == JNull || j == JBool(false) || j == JNumber(0) || j == JString("")
  }

  const EmptyObject: Json := JObject(map[])

  /** A stored event. `id` is MongoDB's `_id`, used by get and delete;
      `eventId` is the business identity, unique across the collection.
      Timestamps are milliseconds since the epoch. */
  datatype Event = Event(
    id: ObjectId,
    eventId: string,
    userId: string,
    eventName: string,
    properties: Json,
    timestamp: int,
    sessionId: Option<string>,
    organizationId: ObjectId,
    projectId: ObjectId,
    createdAt: int,
    updatedAt: int)

  /** A document as the ingest handler passes it to `insertMany`, before the
      schema casts it: tenant ids are still strings, and a timestamp that did
      not parse is an Invalid Date (`None`). */
  datatype EventDoc = EventDoc(
    eventId: string,
    userId: string,
    eventName: string,
    properties: Option<Json>,
    timestamp: Option<int>,
    organizationId: string,
    projectId: string,
    sessionId: Option<string>,
    userAgent: Option<string>,
    ipAddress: Option<string>)

  /** What the schema guarantees of every stored event: the required strings
      are present and non-empty, every string field with `trim: true` is
      stored trimmed, and `createdAt`/`updatedAt` were set together. */
  predicate Conforms(e: Event) {
    && e.eventId != "" && IsTrimmed(e.eventId)
    && e.userId != "" && IsTrimmed(e.userId)
    && e.eventName != "" && IsTrimmed(e.eventName)
    && (e.sessionId.Some? ==> IsTrimmed(e.sessionId.value))
    && e.createdAt == e.updatedAt
  }

  /** The required validators, after the trim setters have run: a required
      string fails when it is empty, a required Date fails when it is an
      Invalid Date, and a required ObjectId fails when its string does not cast. */
  predicate PassesValidation(d: EventDoc) {
    && Trim(d.eventId) != ""
    && Trim(d.userId) != ""
    && Trim(d.eventName) != ""
    && d.timestamp.Some?
    && Cast(d.organizationId).Some?
    && Cast(d.projectId).Some?
  }

  /** The schema applied to one document with the `_id` Mongoose gives it and
      the insertion time. `None` is a validation failure. Fields the schema
      does not declare (`userAgent`, `ipAddress`) are dropped by strict mode. */
  function CastDoc(d: EventDoc, id: ObjectId, now: int): (r: Option<Event>)
    ensures r.Some? <==> PassesValidation(d)
    ensures r.Some? ==> Conforms(r.value) && r.value.id == id
    ensures r.Some? ==> r.value.eventId == Trim(d.eventId)
    ensures r.Some? ==> r.value.userId == Trim(d.userId) && r.value.eventName == Trim(d.eventName)
    ensures r.Some? ==> r.value.sessionId == TrimOptional(d.sessionId)
    ensures r.Some? ==> r.value.timestamp == d.timestamp.value
    ensures r.Some? ==> r.value.properties == (if d.properties.Some? then d.properties.value else EmptyObject)
    ensures r.Some? ==> r.value.createdAt == now
    ensures r.Some? ==> Some(r.value.organizationId) == Cast(d.organizationId)
    ensures r.Some? ==> Some(r.value.projectId) == Cast(d.projectId)
  {
    TrimSpec(d.eventId);
    TrimSpec(d.userId);
    TrimSpec(d.eventName);
    if !PassesValidation(d) then None
    else
      Some(Event(
        id := id,
        eventId := Trim(d.eventId),
        userId := Trim(d.userId),
        eventName := Trim(d.eventName),
        properties := d.properties.GetOr(EmptyObject),
        timestamp := d.timestamp.value,
        sessionId := TrimOptional(d.sessionId),
        organizationId := Cast(d.organizationId).value,
        projectId := Cast(d.projectId).value,
        createdAt := now,
        updatedAt := now))
  }
}
