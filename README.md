# Event analytics backend: ingestion, queries, API keys and organizations

A Dafny model of the backend of an event analytics platform. It covers:

- the event controller, which ingests batches of client events into a tenant's store, lists them with filters and pagination, reads and deletes one event by `_id`, and aggregates statistics;
- the event schema that the store enforces;
- the API-key middleware, which resolves a request's tenant (organization and project) from its headers;
- the project registry it looks keys up in;
- the organization controller, with its schema (a lowercased, trimmed, unique email).

The database is modelled as a sequence of records.

- The schema's effects are written out: trim and lowercase setters, `required` and `maxlength` validators, unique indexes, and the cast of ids to ObjectIds.
- An unordered `insertMany` is a per-document outcome: inserted, rejected by validation, or a duplicate key (error 11000).
- A cursor's `skip` and `limit` are `Cursor.Window`. A negative skip is an error, a limit of 0 means no limit, and a negative limit means its absolute value.

The store and the organization collection are classes whose methods update a sequence field. Each method is proved against a function of the old state, and the properties are lemmas about those functions. The other handlers are functions returning `Result` values. Their error messages and status codes are those of the source.

Randomness (`crypto.randomBytes`), the clock, `new Date` parsing, the request headers and the database's regex matching are parameters:

- a 16-byte block per generated event id;
- `now`;
- the parsed value beside each date text;
- a `hit` predicate for the organization search.

Module layout, one file each:

- `wrappers.dfy`: Option, Result, API errors.
- `js_string.dfy`: JavaScript `trim`, `toLowerCase`, `startsWith`, `replace`.
- `hex.dfy` and `object_id.dfy`: ObjectId text and cast.
- `event_model.dfy`, `event_store.dfy`, `event_normalize.dfy`, `event_ingest.dfy`, `cursor.dfy`, `event_query.dfy`, `event_stats.dfy`.
- `project_model.dfy`, `api_key_auth.dfy`.
- `organization_model.dfy`, `organization_controller.dfy`.

## Model

| member | source | states |
|---|---|---|
| EventNormalize.GenerateEventId | backend/src/controller/event.controller.ts:35-37 | a generated id is `"evt_"` followed by 32 lowercase hex digits (36 characters) |
| EventNormalize.GeneratedIdsDistinct | backend/src/controller/event.controller.ts:35-37 | distinct random blocks give distinct ids |
| EventIngest.Admit | backend/src/controller/event.controller.ts:43-59 | a missing or empty batch is 400, more than 1000 events is 400, and only then is a missing tenant 401; it admits exactly the non-empty batches of at most 1000 with a tenant |
| EventIngest.SizeCheckedBeforeTenant | backend/src/controller/event.controller.ts:43-59 | a batch of the wrong size is refused with 400 even when the tenant is missing |
| EventNormalize.Normalize | backend/src/controller/event.controller.ts:61-81 | userId is checked before eventName, each by truthiness of the untrimmed value, with 400; an accepted event carries the tenant, the trimmed userId and eventName, its own eventId or a generated one, the properties or `{}`, the timestamp or `now`, and the trimmed session id or none |
| EventNormalize.TimestampOf | backend/src/controller/event.controller.ts:74 | a falsy timestamp becomes `now`; a truthy number is kept, and a truthy text becomes its parsed date (an Invalid Date when it does not parse) |
| EventNormalize.PropertiesOf | backend/src/controller/event.controller.ts:73 | falsy properties become `{}`; others are kept |
| EventNormalize.SessionIdOf | backend/src/controller/event.controller.ts:77 | the session id is the trimmed value, and absent when that is empty |
| EventNormalize.NormalizeAllOk | backend/src/controller/event.controller.ts:61-81 | the batch maps without error exactly when every event has a userId and an eventName, element by element through Normalize |
| EventNormalize.NormalizeAllFails | backend/src/controller/event.controller.ts:61-81 | a failing batch fails with the first bad event's 400 error |
| EventModel.CastDoc | backend/src/models/event.model.ts:17-67 | a document is stored exactly when it passes the schema's validators; the stored event conforms and holds the trimmed eventId, userId, eventName and session id, the given timestamp, the properties or `{}`, the cast tenant ids and `now` as its creation time |
| EventStore.EventCollection.InsertMany | backend/src/controller/event.controller.ts:84-86 | the unordered insert leaves the store and the per-document outcomes as InsertAll says, and keeps ids and eventIds unique |
| EventStore.InsertAllAppends | backend/src/controller/event.controller.ts:84-86 | inserting only appends the inserted events; existing records are never changed |
| EventStore.InsertAllPreservesValid | backend/src/models/event.model.ts:19-24 | the unique index on eventId (and unique `_id`s) holds after any batch |
| EventStore.KeysAfter | backend/src/models/event.model.ts:19-24 | after a batch, an eventId is stored exactly when it was before or some valid document of the batch carries it |
| EventStore.OutcomeAt | backend/src/controller/event.controller.ts:84-86 | a document is rejected exactly when it fails validation, and is a duplicate exactly when its eventId is already stored or an earlier valid document in the batch has it |
| EventStore.ReinsertIsNoop | backend/src/controller/event.controller.ts:99-114 | resending events that are all stored changes nothing and reports every one as a duplicate |
| EventStore.OutcomeCounts | backend/src/controller/event.controller.ts:92-110 | inserted, duplicate and rejected outcomes add up to the batch size |
| EventStore.InsertAll | backend/src/controller/event.controller.ts:84-86 | the unordered insert gives one outcome per document, only appends to the collection, and adds at most one event per document |
| EventIngest.IngestEvents | backend/src/controller/event.controller.ts:39-120 | the handler leaves the store and the response as Ingest says and keeps the store's invariant |
| EventIngest.NothingWrittenUnlessAdmitted | backend/src/controller/event.controller.ts:43-81 | the request fails exactly when the batch, the tenant or some event is refused, always with 400 or 401, and then nothing is written |
| EventIngest.StoredEventsBelongToTenant | backend/src/controller/event.controller.ts:75-76 | every event the request stores carries the caller's organization and project |
| EventIngest.Accounting | backend/src/controller/event.controller.ts:88-114 | on 201 the ingested count is the number stored and the stored events are those returned; a 207 happens exactly when some document hit the unique eventId index, and then duplicates is the number of such documents and ingested is the total minus duplicates |
| EventIngest.PartialIngestedIsStoredIffNoneRejected | backend/src/controller/event.controller.ts:101-102 | on 207 the reported ingested count equals the number stored exactly when no document was rejected by validation |
| EventIngest.RejectedCount | backend/src/controller/event.controller.ts:84-86 | no outcome is a validation rejection exactly when every document passes validation |
| EventIngest.Reconcile | backend/src/controller/event.controller.ts:88-114 | the response is 207 exactly when some outcome is a duplicate key, with that many duplicates and ingested plus duplicates equal to the total; otherwise 201 with the inserted events |
| EventIngest.ResendReportsAllDuplicates | backend/src/controller/event.controller.ts:99-114 | re-sending events whose eventIds are all stored changes nothing and is answered 207 with every event a duplicate and none ingested |
| EventIngest.Ingest | backend/src/controller/event.controller.ts:39-120 | a failed request leaves the records as they were; an answered one was admitted, reports the batch size as total and adds at most that many events after the existing ones |
| EventQuery.PageNum | backend/src/controller/event.controller.ts:141 | a missing, unparsable or zero page is 1; any other page is kept, negatives included |
| EventQuery.LimitNum | backend/src/controller/event.controller.ts:142 | the limit defaults to 50, is capped at 1000 and is never 0; a negative limit is kept |
| EventQuery.BuildQuery | backend/src/controller/event.controller.ts:145-170 | the query built field by field is QueryOf: the tenant always, each filter when non-empty, a timestamp range when a date is given |
| EventQuery.QueryMeaning | backend/src/controller/event.controller.ts:145-170 | the cast query exists exactly when the tenant ids and the given dates cast, and then matches exactly the caller's events equal to each non-empty filter after trimming and within both inclusive date bounds |
| EventQuery.CompileQuery | backend/src/controller/event.controller.ts:173-175 | the cast of the query succeeds exactly when the tenant ids are ObjectIds and every given date is valid, and then holds the cast ids, the trimmed string filters and the parsed bounds |
| EventQuery.Select | backend/src/controller/event.controller.ts:173-175 | the selected events are exactly the stored ones the filter matches, each as many times as it is stored, so their number is what `countDocuments` counts |
| EventQuery.SortDesc | backend/src/controller/event.controller.ts:177 | sorting keeps the same events (a permutation) |
| EventQuery.SortDescSorted | backend/src/controller/event.controller.ts:177 | the sorted events are newest first |
| EventQuery.SortDescKeepsTieOrder | backend/src/controller/event.controller.ts:177 | two events with the same timestamp come out in their stored order |
| EventQuery.TotalPages | backend/src/controller/event.controller.ts:193 | the page count is the ceiling of count over the limit: for a positive limit the smallest r with count <= r*limit, and for a negative limit the value of `Math.ceil` on the negative quotient |
| EventQuery.HasNextIff | backend/src/controller/event.controller.ts:194 | there is a next page exactly when the events up to this page's end are fewer than the total |
| EventQuery.ListMessage | backend/src/controller/event.controller.ts:181-182 | the message is "No events found" exactly when nothing matched |
| EventQuery.ListEvents | backend/src/controller/event.controller.ts:122-205 | no tenant is 401 and any other failure 500; a page is never longer than the count or `abs(limit)`, the count never exceeds the stored events, and the limit is at most 1000 |
| EventQuery.ListEventsSpec | backend/src/controller/event.controller.ts:122-205 | the list fails with 500 exactly when a tenant id or a date does not cast or the skip is negative; otherwise the page is exactly the slice of the newest-first matches from the skip on, as long as the limit and the matches allow, the count is every match, and the pagination is currentPage, limit, totalPages, `page < totalPages` and `page > 1` |
| EventQuery.ListEventsTenantIsolation | backend/src/controller/event.controller.ts:145-148 | the listing depends only on the caller's own events |
| EventQuery.GetEventById | backend/src/controller/event.controller.ts:207-231 | no tenant is 401, a malformed id is 500, and a found event is stored and matches the id and the tenant; it is 404 exactly when none matches |
| EventQuery.GetOtherTenantsEventIsNotFound | backend/src/controller/event.controller.ts:217-225 | another tenant's event with that id is reported as not found |
| EventStore.EventCollection.FindOneAndDelete | backend/src/controller/event.controller.ts:243-247 | the first matching record, and only that one, is removed and returned; with no match nothing changes |
| EventQuery.DeleteEvent | backend/src/controller/event.controller.ts:233-257 | the handler leaves the store and the response as DeleteEventOf says and keeps the store's invariant |
| EventQuery.DeleteEventOf | backend/src/controller/event.controller.ts:233-257 | no tenant is 401, a malformed id is 500, and no match, another tenant's event included, is 404 "Event not found or already deleted"; a failure changes nothing; a deleted event was stored, matches the id and the tenant, and exactly one record is gone |
| EventQuery.DeleteRemovesExactlyThatEvent | backend/src/controller/event.controller.ts:233-257 | delete succeeds exactly when get would and answers 404 exactly when get does; it returns that event, removes it and nothing else, and afterwards get answers 404 |
| EventStats.UserIds | backend/src/controller/event.controller.ts:280 | the set holds exactly the userIds of the events |
| EventStats.EventNames | backend/src/controller/event.controller.ts:281 | the set holds exactly the eventNames of the events |
| EventStats.DistinctAtMostTotal | backend/src/controller/event.controller.ts:279-291 | there are no more distinct users or event names than events |
| EventStats.MaxTimestamp | backend/src/controller/event.controller.ts:282 | the latest timestamp is some event's, and no event is newer |
| EventStats.MinTimestamp | backend/src/controller/event.controller.ts:283 | the oldest timestamp is some event's, and no event is older |
| EventStats.SummarizeSpec | backend/src/controller/event.controller.ts:276-304 | the summary counts the events and the distinct users and names, and bounds every timestamp by oldest and latest; with no events it is 0, 0, 0, null, null |
| EventStats.Summarize | backend/src/controller/event.controller.ts:276-304 | the count is the number of events, distinct counts are at most it, the result is the empty default exactly for no events, and every timestamp lies between oldest and latest |
| EventStats.StatsAsWrittenAlwaysEmpty | backend/src/controller/event.controller.ts:269-275 | as written, the statistics are the empty fallback whatever is stored |
| EventStats.StatsAsWrittenMissesStoredEvent | backend/src/controller/event.controller.ts:269-275 | a tenant with one stored event gets empty statistics as written, and a count of 1 from the corrected pipeline |
| EventStats.StatsAsWritten | backend/src/controller/event.controller.ts:259-315 | as written: 401 exactly when the tenant is missing, and never more events than are stored |
| EventStats.GetEventStatsSpec | backend/src/controller/event.controller.ts:259-315 | the corrected statistics succeed exactly when the tenant ids cast, and are the summary of the caller's own events |
| EventStats.GetEventStats | backend/src/controller/event.controller.ts:259-315 | corrected: 401 without a tenant, 500 exactly when a tenant id does not cast, and otherwise bounds every event of the caller by oldest and latest |
| EventStats.GetEventStatsTenantIsolation | backend/src/controller/event.controller.ts:269-275 | the corrected statistics depend only on the caller's own events |
| Cursor.Window | backend/src/controller/event.controller.ts:178-179 | skip and limit fail exactly on a negative skip; the window holds at most `abs(limit)` items (all when 0), taken in order from position `skip` |
| Cursor.PagesTile | backend/src/controller/event.controller.ts:143 | two consecutive pages of size `limit` make one window of size `2 * limit` |
| Cursor.PageOf | backend/src/controller/event.controller.ts:143 | item `k` appears on page `k / limit` at position `k % limit` |
| ObjectIds.Cast | backend/src/models/event.model.ts:51-62 | a string casts to an ObjectId exactly when it is 24 hex digits |
| ObjectIds.CastToString | backend/src/middleware/apiKeyAuth.ts:41-42 | an ObjectId's string form casts back to it |
| Hex.FromHexToHex | backend/src/middleware/apiKeyAuth.ts:41-42 | hex decoding inverts hex encoding |
| JsString.TrimSpec | backend/src/models/event.model.ts:23 | a trimmed string has no white space at either end and is no longer than the input |
| JsString.TrimOfPadded | backend/src/models/event.model.ts:23 | trimming removes exactly the surrounding white space |
| JsString.TrimIdempotent | backend/src/models/organization.model.ts:16 | trimming twice is trimming once |
| JsString.ReplaceFirst | backend/src/middleware/apiKeyAuth.ts:23 | only the first occurrence is replaced, wherever it is; with none the string is unchanged |
| ProjectModel.CastProject | backend/src/models/project.model.ts:13-38 | a project is created exactly when the trimmed name is non-empty and at most 100 characters, the trimmed description at most 500, and the organization and the key are given; it stores the trimmed name and description |
| ProjectModel.FindByApiKey | backend/src/middleware/apiKeyAuth.ts:33-35 | the lookup returns a project holding the key, and nothing exactly when no project holds it |
| ProjectModel.LookupIsDeterministic | backend/src/models/project.model.ts:31-35 | with the unique index on `apiKey`, the lookup returns the project that holds the key |
| ApiKeyAuth.ExtractApiKey | backend/src/middleware/apiKeyAuth.ts:21-23 | a truthy `x-api-key` is the key; otherwise the Authorization header with its first `"Bearer "` removed |
| ApiKeyAuth.Resolve | backend/src/middleware/apiKeyAuth.ts:20-48 | a missing key is 401 and every failure is 401 or the 500 of a project without organization; a resolved project is registered, holds exactly the presented key, which starts with `sk_`, and has an existing organization |
| ApiKeyAuth.BearerTokenExtracted | backend/src/middleware/apiKeyAuth.ts:23 | `"Bearer " + k` yields `k` |
| ApiKeyAuth.BearerRemovedAnywhere | backend/src/middleware/apiKeyAuth.ts:23 | `"Token Bearer sk_1"` yields `"Token sk_1"`: the removal is not anchored |
| ApiKeyAuth.PlainAuthorizationKept | backend/src/middleware/apiKeyAuth.ts:23 | an Authorization header without `"Bearer "` is the key as it is |
| ApiKeyAuth.XApiKeyTakesPrecedence | backend/src/middleware/apiKeyAuth.ts:21-23 | with a truthy `x-api-key` the Authorization header makes no difference |
| ApiKeyAuth.BadPrefixNeedsNoLookup | backend/src/middleware/apiKeyAuth.ts:29-31 | a key without `sk_` is 401 whatever the registry holds |
| ApiKeyAuth.ResolveSpec | backend/src/middleware/apiKeyAuth.ts:20-48 | the middleware succeeds exactly when the key is present, prefixed and registered to a project whose organization exists; the stamped ids cast back to that project's ids and form an authenticated tenant; every other failure is 401 |
| ApiKeyAuth.KeyResolvesToItsProject | backend/src/middleware/apiKeyAuth.ts:33-45 | a registered, prefixed key resolves to the tenant of the project holding it |
| ApiKeyAuth.AuthenticateApiKey | backend/src/middleware/apiKeyAuth.ts:15-49 | on success the request carries the tenant and the project and `next()` is called; on failure the request is untouched and the error goes to `next` |
| OrganizationModel.ToLowerTrimCommute | backend/src/models/organization.model.ts:19-25 | the lowercase and trim setters commute |
| OrganizationModel.EmailKeyIdempotent | backend/src/controller/organization.controller.ts:34-36 | applying the email setters again, or lowercasing before them, changes nothing |
| OrganizationModel.CastOrganization | backend/src/models/organization.model.ts:11-33 | an organization is created exactly when the trimmed name is non-empty and at most 100 characters and the stored email is non-empty; it stores the trimmed name, the lowercased trimmed email and the trimmed website |
| OrganizationController.OrganizationCollection.Create | backend/src/controller/organization.controller.ts:23-66 | the handler leaves the collection and the response as CreateOf says and keeps unique ids and emails |
| OrganizationController.CreateOf | backend/src/controller/organization.controller.ts:23-66 | a failure writes nothing and is 400 or the schema's 500; a success appends exactly the new organization with the given id and time |
| OrganizationController.CreateSpec | backend/src/controller/organization.controller.ts:27-46 | a missing email is 400, then a missing name is 400; an email already stored, in any case or padding, is 400 and nothing is written; creation succeeds exactly when both are given, the stored email is new and the schema accepts name and email, and the new organization holds the trimmed name, stored email and trimmed website |
| OrganizationController.ListOrganizationsSpec | backend/src/controller/organization.controller.ts:68-108 | the list fails exactly on a negative skip; it counts every match and returns exactly the matches from `(page-1)*perPage` on, as many as `perPage` allows with no cap, and says which empty case it is |
| OrganizationController.Search | backend/src/controller/organization.controller.ts:82-88 | without a search every organization is selected, with one exactly those the search hits |
| OrganizationController.ListMessage | backend/src/controller/organization.controller.ts:97-102 | the three messages: found, none at all, none for the keyword |
| OrganizationController.ListOrganizations | backend/src/controller/organization.controller.ts:68-108 | page 1 and perPage 10 by default; 500 exactly when the skip is negative; the page is never longer than the count, which never exceeds the stored organizations |
| OrganizationController.GetOrganizationById | backend/src/controller/organization.controller.ts:110-124 | a malformed id or a missing organization is 500; a found one is stored and has that id |
| OrganizationController.OrganizationCollection.Update | backend/src/controller/organization.controller.ts:126-168 | the handler leaves the collection and the response as UpdateOf says and keeps unique ids and emails |
| OrganizationController.UpdateOf | backend/src/controller/organization.controller.ts:126-168 | a failure writes nothing; a success keeps the number of organizations and stores the updated organization with that id and time |
| OrganizationController.UpdateSucceedsIff | backend/src/controller/organization.controller.ts:134-156 | a malformed id is 500, an id no organization has is 404, then a missing email is 500; the update succeeds exactly when the organization exists, an email is given and no other organization holds its stored form |
| OrganizationController.UpdateLeavesOthers | backend/src/controller/organization.controller.ts:140-152 | an update changes only the organization with that id, stores the lowercased trimmed email, the trimmed name and website when given and keeps them when omitted, and leaves every other organization; a failure changes nothing |
| OrganizationController.OrganizationCollection.Delete | backend/src/controller/organization.controller.ts:170-192 | the handler leaves the collection and the response as DeleteOf says and keeps the invariant |
| OrganizationController.DeleteOf | backend/src/controller/organization.controller.ts:170-192 | a failure writes nothing; a deleted organization was stored, has that id, and exactly one record is gone |
| OrganizationController.DeleteRemovesExactly | backend/src/controller/organization.controller.ts:174-180 | a malformed id is 500; delete succeeds exactly when an organization has the id and is 404 otherwise; it removes exactly that organization and keeps every other one |

## Left out

- JsString.ToLower: only ASCII letters are lowercased. JavaScript's `toLowerCase` maps all of Unicode.
- The `maxlength` validators count characters, not UTF-16 code units.
- `new Date(...)` parsing is not modelled: each date or timestamp text comes with its parsed value as an input.
- The clock and `crypto.randomBytes` are parameters (`now` and one 16-byte block per event), as are the fresh `_id`s the database assigns.
- `userAgent` and `ipAddress` are built by the ingest handler. The event schema declares neither, so strict mode drops them before storage, and the model does not store them.
- EventIngest.IngestEvents: an insert failure other than a duplicate key (which the handler rethrows) is not modelled. The store here fails only on validation or duplicate keys.
- Error messages of database errors (CastError, E11000, the TypeError texts) are abbreviated to fixed strings. The status codes are exact.
- EventQuery.SortDesc: the sort is stable, so events with equal timestamps keep their stored order. MongoDB leaves the order of ties unspecified; the model fixes one order.
- A negative `limit` is modelled as its absolute value in one batch. The cursor's batching is not modelled.
- OrganizationController.ListOrganizations: a `page` or `perPage` that `parseInt` reads as NaN is not modelled; `None` stands for a missing parameter only.
- The organization search's case-insensitive `$regex` on name, email and website is a predicate parameter `hit`. An invalid regular expression is not modelled.
- OrganizationController.UpdateOf: a JSON `null` website in the body is not modelled (an omitted field leaves the stored website alone).
- OrganizationController.UpdateOf: the 404 "Organization not updated successfully" needs a concurrent delete between the two queries, and concurrency is not modelled.
- `populate` on the project's organization is modelled only by whether the organization exists.
- Floating-point timestamps are integers (milliseconds).
- `backend/src/controller/project.controller.ts` is not part of this model: it is plain CRUD with no invariant beyond the required fields.
- The organization controller's "created but then not found" 500 (`findById` after `create`) cannot happen without concurrency and is not modelled.

## Findings

| source | as written | input that shows it | evidently intended | confidence | as-written member | corrected member |
|---|---|---|---|---|---|---|
| backend/src/controller/event.controller.ts:269-275 | `getEventStats` puts the tenant ids from the request, which are strings, into an aggregation `$match`. Aggregation pipelines are not cast to the schema, so a string never equals the stored ObjectIds and the statistics are always the empty fallback. | A tenant with one stored event: its statistics report 0 events, 0 users and null timestamps. | Cast both ids to ObjectIds before `$match`, so the statistics summarise the caller's events. | not executed | EventStats.StatsAsWritten | EventStats.GetEventStats |
