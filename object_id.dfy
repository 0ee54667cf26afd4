/** MongoDB ObjectIds as the handlers meet them: twelve bytes, written as
    24 lowercase hexadecimal characters by `toString()`, and cast back from a
    string (a request parameter or a tenant id held as a string) by Mongoose
    queries; a string that is not 24 hexadecimal characters fails the cast. */
module ObjectIds {
  import opened Wrappers
  import opened Hex

  type ObjectId = b: seq<byte> | |b| == 12
    witness [0, 0, 0, 0, 0, 0, 0, 0, 0, 0, 0, 0]

  /** `oid.toString()`. */
  function ToString(o: ObjectId): (s: string)
    ensures |s| == 24 && AllHex(s)
  {
    FromHexToHex(o);
    ToHex(o)
  }

  predicate IsObjectIdText(s: string) {
    |s| == 24 && AllHex(s)
  }

  /** The cast Mongoose applies to a string compared with an ObjectId field:
      it fails exactly on strings that are not 24 hexadecimal characters. */
  function Cast(s: string): (r: Option<ObjectId>)
    ensures r.Some? <==> IsObjectIdText(s)
  {
    if IsObjectIdText(s) then Some(FromHex(s)) else None
  }

  /** The message of the `CastError` a query raises when a string does not
      cast; the error handler answers it with 500. */
  const CastErrorMessage: string := "Cast to ObjectId failed"

  /** A tenant id turned into a string and cast back is the same id. */
  lemma CastToString(o: ObjectId)
    ensures Cast(ToString(o)) == Some(o)
  {
    FromHexToHex(o);
  }

  /** The values a query filter compares: Mongoose casts `find`, `countDocuments`
      and `findOne` filters to the schema's types, but not aggregation stages,
      where a string stays a string. */
  datatype BsonValue = BString(s: string) | BObjectId(oid: ObjectId)
}
