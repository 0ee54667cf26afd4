/** The events collection as the controllers use it: an unordered
    `insertMany` that puts documents in one at a time under the unique index
    on `eventId`, `findOne` and `findOneAndDelete` by `_id` within a tenant. */
module EventStore {
  import opened Wrappers
  import opened JsString
  import opened ObjectIds
  import opened EventModel

  /** What happened to one document of an unordered `insertMany`. */
  datatype InsertOutcome =
    | Inserted(event: Event)
    | DuplicateKey(eventId: string)   // write error 11000 on the eventId index
    | ValidationFailed                // skipped by Mongoose before the write

  /** The value the unique index sees: `eventId` after the trim setter. */
  function Key(d: EventDoc): string {
    Trim(d.eventId)
  }

  predicate HasEventId(records: seq<Event>, eventId: string) {
    exists k :: 0 <= k < |records| && records[k].eventId == eventId
  }

  predicate HasId(records: seq<Event>, id: ObjectId) {
    exists k :: 0 <= k < |records| && records[k].id == id
  }

  predicate UniqueEventIds(records: seq<Event>) {
    forall i, j :: 0 <= i < j < |records| ==> records[i].eventId != records[j].eventId
  }

  predicate UniqueIds(records: seq<Event>) {
    forall i, j :: 0 <= i < j < |records| ==> records[i].id != records[j].id
  }

  /** The collection's invariant: the unique index on `eventId`, distinct
      `_id`s, and every stored event as the schema shapes it. */
  predicate ValidStore(records: seq<Event>) {
    && UniqueEventIds(records)
    && UniqueIds(records)
    && forall k :: 0 <= k < |records| ==> Conforms(records[k])
  }

  /** `_id`s Mongoose assigns to a batch: pairwise distinct and unused. */
  predicate FreshIds(ids: seq<ObjectId>, records: seq<Event>) {
    && (forall i, j :: 0 <= i < j < |ids| ==> ids[i] != ids[j])
    && (forall i :: 0 <= i < |ids| ==> !HasId(records, ids[i]))
  }

  /** One document of the batch going in. */
  function InsertOne(records: seq<Event>, d: EventDoc, id: ObjectId, now: int): (seq<Event>, InsertOutcome) {
    match CastDoc(d, id, now)
    case None => (records, ValidationFailed)
    case Some(e) =>
      if HasEventId(records, e.eventId) then (records, DuplicateKey(e.eventId))
      else (records + [e], Inserted(e))
  }

  datatype WriteState = WriteState(records: seq<Event>, outcomes: seq<InsertOutcome>)

  /** An unordered `insertMany`: the documents go in one after the other, a
      failing one does not stop the rest, and each gets its own outcome.
      Records already stored are never overwritten. */
  function InsertAll(records: seq<Event>, docs: seq<EventDoc>, ids: seq<ObjectId>, now: int): (w: WriteState)
    requires |ids| == |docs|
    ensures |w.outcomes| == |docs|
    ensures |records| <= |w.records| <= |records| + |docs|
    ensures w.records[..|records|] == records
    decreases |docs|
  {
    if docs == [] then WriteState(records, [])
    else
      var (recs, o) := InsertOne(records, docs[0], ids[0], now);
      var w := InsertAll(recs, docs[1..], ids[1..], now);
      WriteState(w.records, [o] + w.outcomes)
  }

  /** The events of the `Inserted` outcomes, in order. */
  function InsertedEvents(outcomes: seq<InsertOutcome>): seq<Event> {
    if outcomes == [] then []
    else (if outcomes[0].Inserted? then [outcomes[0].event] else []) + InsertedEvents(outcomes[1..])
  }

  /** Every event listed as inserted comes from an `Inserted` outcome. */
  lemma {:induction false} InsertedEventsFrom(outcomes: seq<InsertOutcome>, e: Event)
    requires e in InsertedEvents(outcomes)
    ensures exists i :: 0 <= i < |outcomes| && outcomes[i] == Inserted(e)
  {
    if outcomes[0] != Inserted(e) {
      assert e in InsertedEvents(outcomes[1..]);
      InsertedEventsFrom(outcomes[1..], e);
      var i :| 0 <= i < |outcomes[1..]| && outcomes[1..][i] == Inserted(e);
      assert outcomes[i + 1] == Inserted(e);
    }
  }

  function CountDuplicates(outcomes: seq<InsertOutcome>): nat {
    if outcomes == [] then 0
    else (if outcomes[0].DuplicateKey? then 1 else 0) + CountDuplicates(outcomes[1..])
  }

  function CountRejected(outcomes: seq<InsertOutcome>): nat {
    if outcomes == [] then 0
    else (if outcomes[0].ValidationFailed? then 1 else 0) + CountRejected(outcomes[1..])
  }

  /** Every outcome is exactly one of inserted, duplicate, or rejected. */
  lemma {:induction false} OutcomeCounts(outcomes: seq<InsertOutcome>)
    ensures |outcomes| == |InsertedEvents(outcomes)| + CountDuplicates(outcomes) + CountRejected(outcomes)
  {
    if outcomes != [] {
      OutcomeCounts(outcomes[1..]);
    }
  }

  /** The collection after the batch is the old collection followed by the
      inserted events, in batch order. */
  lemma {:induction false} InsertAllAppends(records: seq<Event>, docs: seq<EventDoc>, ids: seq<ObjectId>, now: int)
    requires |ids| == |docs|
    ensures var w := InsertAll(records, docs, ids, now);
      w.records == records + InsertedEvents(w.outcomes)
    decreases |docs|
  {
    if docs != [] {
      var (recs, o) := InsertOne(records, docs[0], ids[0], now);
      InsertAllAppends(recs, docs[1..], ids[1..], now);
      var w := InsertAll(recs, docs[1..], ids[1..], now);
      assert ([o] + w.outcomes)[1..] == w.outcomes;
    }
  }

  /** One insert keeps the invariant of the collection, and the `_id`s left
      for the rest of the batch are still unused. */
  lemma InsertOneStep(records: seq<Event>, d: EventDoc, ids: seq<ObjectId>, now: int)
    requires |ids| > 0 && ValidStore(records) && FreshIds(ids, records)
    ensures var recs := InsertOne(records, d, ids[0], now).0;
      ValidStore(recs) && FreshIds(ids[1..], recs)
  {
    var recs := InsertOne(records, d, ids[0], now).0;
    forall i | 0 <= i < |ids[1..]| ensures !HasId(recs, ids[1..][i]) {
      assert ids[1..][i] == ids[i + 1];
      assert ids[0] != ids[i + 1];
      if recs != records {
        assert recs == records + [recs[|records|]];
      }
    }
  }

  /** The invariant of the collection survives a batch insert. */
  lemma {:induction false} InsertAllPreservesValid(records: seq<Event>, docs: seq<EventDoc>, ids: seq<ObjectId>, now: int)
    requires |ids| == |docs|
    requires ValidStore(records) && FreshIds(ids, records)
    ensures ValidStore(InsertAll(records, docs, ids, now).records)
    decreases |docs|
  {
    if docs != [] {
      var recs := InsertOne(records, docs[0], ids[0], now).0;
      InsertOneStep(records, docs[0], ids, now);
      InsertAllPreservesValid(recs, docs[1..], ids[1..], now);
    }
  }

  /** One insert stores `key` exactly when it was stored before or the
      document passed validation and carries it. */
  lemma KeysAfterOne(records: seq<Event>, d: EventDoc, id: ObjectId, now: int, key: string)
    ensures HasEventId(InsertOne(records, d, id, now).0, key) <==>
              HasEventId(records, key) || (PassesValidation(d) && Key(d) == key)
  {
    var recs := InsertOne(records, d, id, now).0;
    var cast := CastDoc(d, id, now);
    if cast.Some? && !HasEventId(records, cast.value.eventId) {
      assert recs == records + [cast.value];
      if HasEventId(recs, key) && !HasEventId(records, key) {
        var k :| 0 <= k < |recs| && recs[k].eventId == key;
        assert k == |records|;
        assert key == cast.value.eventId == Key(d);
      }
      if Key(d) == key {
        assert recs[|records|].eventId == key;
      }
      if HasEventId(records, key) {
        var k :| 0 <= k < |records| && records[k].eventId == key;
        assert recs[k] == records[k];
      }
    } else if cast.Some? {
      assert recs == records;
      assert cast.value.eventId == Key(d);
    }
  }

  /** After the batch, an `eventId` is stored exactly when it was stored
      before or some document of the batch that passed validation carries it. */
  lemma {:induction false} KeysAfter(records: seq<Event>, docs: seq<EventDoc>, ids: seq<ObjectId>, now: int, key: string)
    requires |ids| == |docs|
    ensures HasEventId(InsertAll(records, docs, ids, now).records, key) <==>
              HasEventId(records, key) || exists j :: 0 <= j < |docs| && PassesValidation(docs[j]) && Key(docs[j]) == key
    decreases |docs|
  {
    if docs != [] {
      var recs := InsertOne(records, docs[0], ids[0], now).0;
      KeysAfterOne(records, docs[0], ids[0], now, key);
      KeysAfter(recs, docs[1..], ids[1..], now, key);
      if exists j :: 0 <= j < |docs| && PassesValidation(docs[j]) && Key(docs[j]) == key {
        var j :| 0 <= j < |docs| && PassesValidation(docs[j]) && Key(docs[j]) == key;
        if j > 0 {
          assert docs[1..][j - 1] == docs[j];
        }
      }
      if exists j :: 0 <= j < |docs[1..]| && PassesValidation(docs[1..][j]) && Key(docs[1..][j]) == key {
        var j :| 0 <= j < |docs[1..]| && PassesValidation(docs[1..][j]) && Key(docs[1..][j]) == key;
        assert docs[j + 1] == docs[1..][j];
      }
    }
  }

  /** The outcome of one insert: rejected exactly when the document fails
      validation, a duplicate exactly when its `eventId` is already stored,
      otherwise inserted as the schema shapes it. */
  lemma OutcomeOfOne(records: seq<Event>, d: EventDoc, id: ObjectId, now: int)
    ensures var o := InsertOne(records, d, id, now).1;
      && (o.ValidationFailed? <==> !PassesValidation(d))
      && (o.DuplicateKey? <==> PassesValidation(d) && HasEventId(records, Key(d)))
      && (o.Inserted? ==> o.event == CastDoc(d, id, now).value)
  {
  }

  /** The outcome of the `i`-th document: rejected exactly when it fails
      validation; a duplicate exactly when its `eventId` was already stored or
      an earlier valid document of the same batch carries it; otherwise
      inserted as the schema shapes it. */
  lemma {:induction false} OutcomeAt(records: seq<Event>, docs: seq<EventDoc>, ids: seq<ObjectId>, now: int, i: nat)
    requires |ids| == |docs| && i < |docs|
    ensures var o := InsertAll(records, docs, ids, now).outcomes[i];
      && (o.ValidationFailed? <==> !PassesValidation(docs[i]))
      && (o.DuplicateKey? <==>
            PassesValidation(docs[i]) &&
            (HasEventId(records, Key(docs[i])) ||
             exists j :: 0 <= j < i && PassesValidation(docs[j]) && Key(docs[j]) == Key(docs[i])))
      && (o.Inserted? ==> o.event == CastDoc(docs[i], ids[i], now).value)
    decreases |docs|
  {
    var (recs, o0) := InsertOne(records, docs[0], ids[0], now);
    var rest := InsertAll(recs, docs[1..], ids[1..], now);
    assert InsertAll(records, docs, ids, now).outcomes == [o0] + rest.outcomes;
    if i == 0 {
      OutcomeOfOne(records, docs[0], ids[0], now);
    } else {
      OutcomeAt(recs, docs[1..], ids[1..], now, i - 1);
      var key := Key(docs[i]);
      KeysAfterOne(records, docs[0], ids[0], now, key);
      assert docs[1..][i - 1] == docs[i] && ids[1..][i - 1] == ids[i];
      EarlierKeyShift(docs, i, key);
    }
  }

  /** An earlier valid document carrying `key` is either the first document
      or an earlier one of the rest of the batch. */
  lemma EarlierKeyShift(docs: seq<EventDoc>, i: nat, key: string)
    requires 0 < i < |docs|
    ensures (exists j :: 0 <= j < i && PassesValidation(docs[j]) && Key(docs[j]) == key) <==>
            (PassesValidation(docs[0]) && Key(docs[0]) == key) ||
            (exists j :: 0 <= j < i - 1 && PassesValidation(docs[1..][j]) && Key(docs[1..][j]) == key)
  {
    if exists j :: 0 <= j < i && PassesValidation(docs[j]) && Key(docs[j]) == key {
      var j :| 0 <= j < i && PassesValidation(docs[j]) && Key(docs[j]) == key;
      if j > 0 {
        assert docs[1..][j - 1] == docs[j];
      }
    }
    if exists j :: 0 <= j < i - 1 && PassesValidation(docs[1..][j]) && Key(docs[1..][j]) == key {
      var j :| 0 <= j < i - 1 && PassesValidation(docs[1..][j]) && Key(docs[1..][j]) == key;
      assert docs[j + 1] == docs[1..][j];
    }
  }

  /** Re-submitting documents that are all stored already (and all valid)
      changes nothing and reports every one of them as a duplicate. */
  lemma {:induction false} ReinsertIsNoop(records: seq<Event>, docs: seq<EventDoc>, ids: seq<ObjectId>, now: int)
    requires |ids| == |docs|
    requires forall j :: 0 <= j < |docs| ==> PassesValidation(docs[j]) && HasEventId(records, Key(docs[j]))
    ensures InsertAll(records, docs, ids, now).records == records
    ensures forall j :: 0 <= j < |docs| ==> InsertAll(records, docs, ids, now).outcomes[j].DuplicateKey?
    ensures CountDuplicates(InsertAll(records, docs, ids, now).outcomes) == |docs|
    decreases |docs|
  {
    if docs != [] {
      assert InsertOne(records, docs[0], ids[0], now).0 == records;
      ReinsertIsNoop(records, docs[1..], ids[1..], now);
      var w := InsertAll(records, docs[1..], ids[1..], now);
      var w' := InsertAll(records, docs, ids, now);
      assert w'.outcomes[1..] == w.outcomes;
      forall j | 0 <= j < |docs| ensures w'.outcomes[j].DuplicateKey? {
        if j > 0 {
          assert w'.outcomes[j] == w.outcomes[j - 1];
        }
      }
    }
  }

  /** The filter the get and delete handlers build: `_id` and the tenant. */
  datatype IdFilter = IdFilter(id: ObjectId, organizationId: ObjectId, projectId: ObjectId)

  predicate MatchesId(f: IdFilter, e: Event) {
    e.id == f.id && e.organizationId == f.organizationId && e.projectId == f.projectId
  }

  /** The position of the first record the filter matches. */
  function FirstMatch(records: seq<Event>, f: IdFilter): (r: Option<nat>)
    ensures r.Some? ==> r.value < |records| && MatchesId(f, records[r.value])
    ensures r.Some? ==> forall k :: 0 <= k < r.value ==> !MatchesId(f, records[k])
    ensures r.None? ==> forall k :: 0 <= k < |records| ==> !MatchesId(f, records[k])
  {
    if records == [] then None
    else if MatchesId(f, records[0]) then Some(0)
    else
      match FirstMatch(records[1..], f)
      case None => None
      case Some(k) => Some(k + 1)
  }

  /** `findOne(filter)`. */
  function FindOne(records: seq<Event>, f: IdFilter): (r: Option<Event>)
    ensures r.Some? ==> r.value in records && MatchesId(f, r.value)
    ensures r.None? <==> forall k :: 0 <= k < |records| ==> !MatchesId(f, records[k])
  {
    match FirstMatch(records, f)
    case None => None
    case Some(k) => Some(records[k])
  }

  function RemoveAt(records: seq<Event>, k: nat): seq<Event>
    requires k < |records|
  {
    records[..k] + records[k + 1..]
  }

  /** Removing one record keeps the invariant. */
  lemma RemoveAtValid(records: seq<Event>, k: nat)
    requires k < |records| && ValidStore(records)
    ensures ValidStore(RemoveAt(records, k))
  {
    var r := RemoveAt(records, k);
    forall i | 0 <= i < |r| ensures r[i] == records[if i < k then i else i + 1] {
    }
  }

  /** Removing one record keeps every other record. */
  lemma RemoveAtKeepsOthers(records: seq<Event>, k: nat)
    requires k < |records| && UniqueIds(records)
    ensures multiset(RemoveAt(records, k)) + multiset{records[k]} == multiset(records)
    ensures forall e :: e in RemoveAt(records, k) <==> e in records && e != records[k]
  {
    var r := RemoveAt(records, k);
    assert records == records[..k] + [records[k]] + records[k + 1..];
    forall e | e in records && e != records[k] ensures e in r {
      var m :| 0 <= m < |records| && records[m] == e;
      if m < k { assert r[m] == e; } else { assert r[m - 1] == e; }
    }
    forall e | e in r ensures e in records && e != records[k] {
      var m :| 0 <= m < |r| && r[m] == e;
      var m' := if m < k then m else m + 1;
      assert records[m'] == e && m' != k;
    }
  }

  /** The events collection. */
  class EventCollection {
    var records: seq<Event>

    ghost predicate Valid()
      reads this
    {
      ValidStore(records)
    }

    constructor ()
      ensures Valid() && records == []
    {
      records := [];
    }

    /** `insertMany(docs, { ordered: false })`, one document at a time. */
    method InsertMany(docs: seq<EventDoc>, ids: seq<ObjectId>, now: int) returns (outcomes: seq<InsertOutcome>)
      requires Valid() && |ids| == |docs| && FreshIds(ids, records)
      modifies this
      ensures Valid()
      ensures WriteState(records, outcomes) == InsertAll(old(records), docs, ids, now)
    {
      ghost var final := InsertAll(records, docs, ids, now);
      outcomes := [];
      var i := 0;
      while i < |docs|
        invariant 0 <= i <= |docs|
        invariant ValidStore(records) && FreshIds(ids[i..], records)
        invariant final == (var rest := InsertAll(records, docs[i..], ids[i..], now);
                            WriteState(rest.records, outcomes + rest.outcomes))
      {
        assert docs[i..][1..] == docs[i + 1..] && ids[i..][1..] == ids[i + 1..];
        assert docs[i..][0] == docs[i] && ids[i..][0] == ids[i];
        InsertOneStep(records, docs[i], ids[i..], now);
        var (recs, o) := InsertOne(records, docs[i], ids[i], now);
        records := recs;
        outcomes := outcomes + [o];
        i := i + 1;
      }
    }

    /** `findOneAndDelete(filter)`: removes the first matching record, if any,
        and returns it; every other record stays as it was. */
    method FindOneAndDelete(f: IdFilter) returns (deleted: Option<Event>)
      requires Valid()
      modifies this
      ensures Valid()
      ensures deleted == FindOne(old(records), f)
      ensures deleted.None? ==> records == old(records)
      ensures deleted.Some? ==> records == RemoveAt(old(records), FirstMatch(old(records), f).value)
      ensures deleted.Some? ==> multiset(records) + multiset{deleted.value} == multiset(old(records))
      ensures deleted.Some? ==> forall e :: e in records <==> e in old(records) && e != deleted.value
    {
      var k := FirstMatch(records, f);
      if k.None? {
        deleted := None;
      } else {
        deleted := Some(records[k.value]);
        RemoveAtValid(records, k.value);
        RemoveAtKeepsOthers(records, k.value);
        records := RemoveAt(records, k.value);
      }
    }
  }
}
