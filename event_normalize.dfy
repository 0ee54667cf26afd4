/** The `events.map` of `ingestEvents` in
    backend/src/controller/event.controller.ts: each submitted event is checked
    for its required fields and turned into the document handed to
    `insertMany`, stamped with the caller's tenant. */
module EventNormalize {
  import opened Wrappers
  import opened JsString
  import opened Hex
  import opened EventModel

  /** Sixteen random bytes, as `crypto.randomBytes(16)` yields them. */
  type Block = b: seq<byte> | |b| == 16
    witness [0, 0, 0, 0, 0, 0, 0, 0, 0, 0, 0, 0, 0, 0, 0, 0]

  /** A submitted timestamp: a string that `new Date` parses to an instant
      (`parsed`) or to an Invalid Date (`None`), or a number of milliseconds. */
  datatype TimeInput = TimeText(text: string, parsed: Option<int>) | TimeMillis(ms: int)

  /** One element of the request's `events` array; absent fields are `None`. */
  datatype RawEvent = RawEvent(
    eventId: Option<string>,
    userId: Option<string>,
    eventName: Option<string>,
    properties: Option<Json>,
    timestamp: Option<TimeInput>,
    sessionId: Option<string>)

  /** The request context the handler reads besides the body: the tenant the
      API-key middleware stamped, the `user-agent` header, `req.ip` and the
      socket's remote address. */
  datatype Tenant = Tenant(organizationId: Option<string>, projectId: Option<string>)

  datatype RequestMeta = RequestMeta(userAgent: Option<string>, ip: Option<string>, remoteAddress: Option<string>)

  predicate HasTenant(t: Tenant) {
    Truthy(t.organizationId) && Truthy(t.projectId)
  }

  const EventIdPrefix: string := "evt_"

  /** `generateEventId` with the random bytes passed in: "evt_" and 32
      lowercase hexadecimal characters. */
  function GenerateEventId(rand: Block): (id: string)
    ensures |id| == 36 && id[..4] == EventIdPrefix
    ensures forall k :: 4 <= k < 36 ==> IsLowerHexChar(id[k])
  {
    EventIdPrefix + ToHex(rand)
  }

  /** Different random bytes give different event ids. */
  lemma GeneratedIdsDistinct(a: Block, b: Block)
    requires a != b
    ensures GenerateEventId(a) != GenerateEventId(b)
  {
    if GenerateEventId(a) == GenerateEventId(b) {
      assert ToHex(a) == GenerateEventId(a)[4..];
      assert ToHex(b) == GenerateEventId(b)[4..];
      ToHexInjective(a, b);
    }
  }

  /** JavaScript truthiness of a timestamp value. */
  predicate TimeTruthy(t: Option<TimeInput>) {
    match t
    case None => false
    case Some(TimeText(text, _)) => text != ""
    case Some(TimeMillis(ms)) => ms != 0
  }

  /** `event.timestamp ? new Date(event.timestamp) : new Date()`; `None` is an
      Invalid Date. */
  function TimestampOf(t: Option<TimeInput>, now: int): (r: Option<int>)
    ensures !TimeTruthy(t) ==> r == Some(now)
    ensures t.Some? && t.value.TimeMillis? && TimeTruthy(t) ==> r == Some(t.value.ms)
    ensures t.Some? && t.value.TimeText? && TimeTruthy(t) ==> r == t.value.parsed
  {
    if !TimeTruthy(t) then Some(now)
    else match t.value
      case TimeText(_, parsed) => parsed
      case TimeMillis(ms) => Some(ms)
  }

  /** `event.properties || {}`. */
  function PropertiesOf(p: Option<Json>): (r: Json)
    ensures p.Some? && !Falsy(p.value) ==> r == p.value
    ensures p.None? || Falsy(p.value) ==> r == EmptyObject
  {
    if p.Some? && !Falsy(p.value) then p.value else EmptyObject
  }

  /** `event.sessionId?.trim() || undefined`: trimmed, and absent when nothing
      is left. */
  function SessionIdOf(s: Option<string>): (r: Option<string>)
    ensures r.Some? <==> s.Some? && Trim(s.value) != ""
    ensures r.Some? ==> r.value == Trim(s.value) && IsTrimmed(r.value)
  {
    match s
    case None => None
    case Some(v) => TrimSpec(v); if Trim(v) == "" then None else Some(Trim(v))
  }

  /** One submitted event turned into a document. The required-field checks
      look at the value as submitted, before trimming: a `userId` of spaces
      passes here. `userId` is checked before `eventName`. */
  function Normalize(raw: RawEvent, organizationId: string, projectId: string,
                     meta: RequestMeta, rand: Block, now: int): (r: Result<EventDoc>)
    ensures !Truthy(raw.userId) ==> r == Err(ApiError(400, "userId is required for each event"))
    ensures Truthy(raw.userId) && !Truthy(raw.eventName) ==>
              r == Err(ApiError(400, "eventName is required for each event"))
    ensures r.Ok? <==> Truthy(raw.userId) && Truthy(raw.eventName)
    ensures r.Ok? ==> && r.value.organizationId == organizationId
                      && r.value.projectId == projectId
                      && r.value.userId == Trim(raw.userId.value)
                      && r.value.eventName == Trim(raw.eventName.value)
                      && r.value.eventId == (if Truthy(raw.eventId) then raw.eventId.value
                                             else GenerateEventId(rand))
    ensures r.Ok? ==> && r.value.properties == Some(PropertiesOf(raw.properties))
                      && r.value.timestamp == TimestampOf(raw.timestamp, now)
                      && r.value.sessionId == SessionIdOf(raw.sessionId)
  {
    if !Truthy(raw.userId) then Err(ApiError(400, "userId is required for each event"))
    else if !Truthy(raw.eventName) then Err(ApiError(400, "eventName is required for each event"))
    else
      Ok(EventDoc(
        eventId := if Truthy(raw.eventId) then raw.eventId.value else GenerateEventId(rand),
        userId := Trim(raw.userId.value),
        eventName := Trim(raw.eventName.value),
        properties := Some(PropertiesOf(raw.properties)),
        timestamp := TimestampOf(raw.timestamp, now),
        organizationId := organizationId,
        projectId := projectId,
        sessionId := SessionIdOf(raw.sessionId),
        userAgent := OrElse(meta.userAgent, None),
        ipAddress := OrElse(meta.ip, OrElse(meta.remoteAddress, None))))
  }

  predicate Admissible(raw: RawEvent) {
    Truthy(raw.userId) && Truthy(raw.eventName)
  }

  /** The whole `events.map`: the first event that fails its check aborts the
      batch with that event's error; otherwise one document per event, in order. */
  function NormalizeAll(raws: seq<RawEvent>, organizationId: string, projectId: string,
                        meta: RequestMeta, rand: seq<Block>, now: int): (r: Result<seq<EventDoc>>)
    requires |rand| == |raws|
    ensures r.Ok? ==> |r.value| == |raws|
    decreases |raws|
  {
    if raws == [] then Ok([])
    else
      var d :- Normalize(raws[0], organizationId, projectId, meta, rand[0], now);
      var rest :- NormalizeAll(raws[1..], organizationId, projectId, meta, rand[1..], now);
      Ok([d] + rest)
  }

  /** The batch normalises exactly when every event passes its check, and
      then the `i`-th document is the `i`-th event normalised. */
  lemma {:induction false} NormalizeAllOk(raws: seq<RawEvent>, organizationId: string, projectId: string,
                                          meta: RequestMeta, rand: seq<Block>, now: int)
    requires |rand| == |raws|
    ensures var r := NormalizeAll(raws, organizationId, projectId, meta, rand, now);
      && (r.Ok? <==> forall i :: 0 <= i < |raws| ==> Admissible(raws[i]))
      && (r.Ok? ==> forall i :: 0 <= i < |raws| ==>
            Normalize(raws[i], organizationId, projectId, meta, rand[i], now) == Ok(r.value[i]))
    decreases |raws|
  {
    if raws != [] {
      NormalizeAllOk(raws[1..], organizationId, projectId, meta, rand[1..], now);
      var r := NormalizeAll(raws, organizationId, projectId, meta, rand, now);
      if forall i :: 0 <= i < |raws| ==> Admissible(raws[i]) {
        forall i | 0 <= i < |raws| - 1 ensures Admissible(raws[1..][i]) {
          assert raws[1..][i] == raws[i + 1];
        }
      }
      if r.Ok? {
        forall i | 0 <= i < |raws| ensures Admissible(raws[i]) && Normalize(raws[i], organizationId, projectId, meta, rand[i], now) == Ok(r.value[i]) {
          if i > 0 {
            assert raws[1..][i - 1] == raws[i] && rand[1..][i - 1] == rand[i];
          }
        }
      }
    }
  }

  /** A failing batch reports the error of its first failing event, and that
      error is a 400. */
  lemma {:induction false} NormalizeAllFails(raws: seq<RawEvent>, organizationId: string, projectId: string,
                                             meta: RequestMeta, rand: seq<Block>, now: int)
    requires |rand| == |raws|
    ensures var r := NormalizeAll(raws, organizationId, projectId, meta, rand, now);
      r.Err? ==> exists i :: 0 <= i < |raws| && !Admissible(raws[i])
                   && (forall j :: 0 <= j < i ==> Admissible(raws[j]))
                   && r == Normalize(raws[i], organizationId, projectId, meta, rand[i], now).PropagateFailure()
                   && r.error.statusCode == 400
    decreases |raws|
  {
    var r := NormalizeAll(raws, organizationId, projectId, meta, rand, now);
    if raws != [] && r.Err? {
      if Admissible(raws[0]) {
        NormalizeAllFails(raws[1..], organizationId, projectId, meta, rand[1..], now);
        var i :| 0 <= i < |raws[1..]| && !Admissible(raws[1..][i])
                 && (forall j :: 0 <= j < i ==> Admissible(raws[1..][j]))
                 && NormalizeAll(raws[1..], organizationId, projectId, meta, rand[1..], now)
                    == Normalize(raws[1..][i], organizationId, projectId, meta, rand[1..][i], now).PropagateFailure();
        assert raws[1..][i] == raws[i + 1] && rand[1..][i] == rand[i + 1];
        forall j | 0 <= j < i + 1 ensures Admissible(raws[j]) {
          if j > 0 {
            assert raws[j] == raws[1..][j - 1];
          }
        }
      }
    }
  }
}
