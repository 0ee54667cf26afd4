/** The Organization record of backend/src/models/organization.model.ts and
    what its schema does to a document: trimmed name of at most 100
    characters, an email stored lowercased and trimmed under a unique index,
    and a trimmed website that defaults to null. */
module OrganizationModel {
  import opened Wrappers
  import opened JsString
  import opened ObjectIds

  const MaxNameLength: nat := 100

  datatype Organization = Organization(
    id: ObjectId,
    name: string,
    email: string,
    website: Option<string>,
    createdAt: int,
    updatedAt: int)

  /** Lowercasing leaves white space alone and makes no new white space. */
  lemma LowerCharWhitespace(c: char)
    ensures IsWhitespace(LowerChar(c)) <==> IsWhitespace(c)
  {
  }

  lemma ToLowerTail(s: string)
    requires s != []
    ensures ToLower(s)[1..] == ToLower(s[1..])
    ensures ToLower(s)[..|s| - 1] == ToLower(s[..|s| - 1])
  {
  }

  lemma {:induction false} ToLowerTrimStart(s: string)
    ensures ToLower(TrimStart(s)) == TrimStart(ToLower(s))
  {
    if s != [] {
      LowerCharWhitespace(s[0]);
      ToLowerTail(s);
      if IsWhitespace(s[0]) {
        ToLowerTrimStart(s[1..]);
      }
    }
  }

  lemma {:induction false} ToLowerTrimEnd(s: string)
    ensures ToLower(TrimEnd(s)) == TrimEnd(ToLower(s))
  {
    if s != [] {
      LowerCharWhitespace(s[|s| - 1]);
      ToLowerTail(s);
      if IsWhitespace(s[|s| - 1]) {
        ToLowerTrimEnd(s[..|s| - 1]);
      }
    }
  }

  /** The `lowercase` and `trim` setters commute, so the order Mongoose runs
      them in does not matter. */
  lemma ToLowerTrimCommute(s: string)
    ensures ToLower(Trim(s)) == Trim(ToLower(s))
  {
    ToLowerTrimStart(s);
    ToLowerTrimEnd(TrimStart(s));
  }

  /** The email as the schema's setters store it, and as they cast it in
      a query filter or an update. */
  function EmailKey(email: string): string {
    Trim(ToLower(email))
  }

  /** Applying the setters again changes nothing; in particular lowercasing
      in the handler before the setters run makes no difference. */
  lemma EmailKeyIdempotent(email: string)
    ensures EmailKey(EmailKey(email)) == EmailKey(email)
    ensures EmailKey(ToLower(email)) == EmailKey(email)
  {
    ToLowerTrimCommute(ToLower(email));
    ToLowerIdempotent(email);
    TrimIdempotent(ToLower(email));
  }

  /** An email already in its stored form: the setters leave it as it is. */
  predicate StoredEmail(email: string) {
    EmailKey(email) == email
  }

  /** A created organization's email: non-empty and in its stored form. */
  predicate EmailNormal(email: string) {
    email != "" && StoredEmail(email)
  }

  /** What the schema guarantees of a created organization. */
  predicate Conforms(o: Organization) {
    && o.name != "" && IsTrimmed(o.name) && |o.name| <= MaxNameLength
    && EmailNormal(o.email)
    && (o.website.Some? ==> IsTrimmed(o.website.value))
    && o.createdAt == o.updatedAt
  }

  /** The schema applied to a new organization: setters, then the
      validators; `None` is a validation failure. */
  function CastOrganization(id: ObjectId, name: string, email: string, website: Option<string>, now: int): (r: Option<Organization>)
    ensures r.Some? <==> Trim(name) != "" && |Trim(name)| <= MaxNameLength && EmailKey(email) != ""
    ensures r.Some? ==> Conforms(r.value) && r.value.id == id && r.value.email == EmailKey(email)
    ensures r.Some? ==> r.value.name == Trim(name) && r.value.website == TrimOptional(website)
  {
    TrimSpec(name);
    EmailKeyIdempotent(email);
    if Trim(name) == "" || |Trim(name)| > MaxNameLength || EmailKey(email) == "" then None
    else Some(Organization(id, Trim(name), EmailKey(email), TrimOptional(website), now, now))
  }

  /** The collection's invariant: distinct `_id`s, the unique index on the
      email, and every email in its stored form (an update, which runs no
      validators, can store an empty one). */
  predicate ValidOrganizations(orgs: seq<Organization>) {
    && (forall i, j :: 0 <= i < j < |orgs| ==> orgs[i].id != orgs[j].id)
    && (forall i, j :: 0 <= i < j < |orgs| ==> orgs[i].email != orgs[j].email)
    && (forall k :: 0 <= k < |orgs| ==> StoredEmail(orgs[k].email))
  }
}
