/** The handlers of backend/src/controller/organization.controller.ts over the
    Organization collection: create, list, get, update and delete. */
module OrganizationController {
  import opened Wrappers
  import opened JsString
  import opened ObjectIds
  import opened Cursor
  import opened OrganizationModel

  const ValidationMessage: string := "Organization validation failed"
  const DuplicateKeyMessage: string := "E11000 duplicate key error"
  const MissingEmailMessage: string := "Cannot read properties of undefined (reading 'toLowerCase')"
  const NegativeSkipMessage: string := "skip must be non-negative"

  /** The position of the organization with `_id` `id`. */
  function IndexOfId(orgs: seq<Organization>, id: ObjectId): (r: Option<nat>)
    ensures r.Some? ==> r.value < |orgs| && orgs[r.value].id == id
    ensures r.None? <==> forall k :: 0 <= k < |orgs| ==> orgs[k].id != id
  {
    if orgs == [] then None
    else if orgs[0].id == id then Some(0)
    else
      match IndexOfId(orgs[1..], id)
      case None =>
        assert forall k :: 1 <= k < |orgs| ==> orgs[k] == orgs[1..][k - 1];
        None
      case Some(k) => Some(k + 1)
  }

  predicate HasEmail(orgs: seq<Organization>, email: string) {
    exists k :: 0 <= k < |orgs| && orgs[k].email == email
  }

  predicate FreshId(orgs: seq<Organization>, id: ObjectId) {
    forall k :: 0 <= k < |orgs| ==> orgs[k].id != id
  }

  /** `createOrganization`: the records afterwards and the response. */
  function CreateOf(orgs: seq<Organization>, name: Option<string>, email: Option<string>,
                    website: Option<string>, id: ObjectId, now: int): (r: (seq<Organization>, Result<Organization>))
    ensures r.1.Err? ==> r.0 == orgs
    ensures r.1.Err? ==> r.1.error.statusCode == 400 || r.1.error == ApiError(500, ValidationMessage)
    ensures r.1.Ok? ==> r.0 == orgs + [r.1.value] && r.1.value.id == id && r.1.value.createdAt == now
  {
    if !Truthy(email) then (orgs, Err(ApiError(400, "Email is required")))
    else if !Truthy(name) then (orgs, Err(ApiError(400, "Name is required")))
    else if HasEmail(orgs, EmailKey(ToLower(email.value))) then (orgs, Err(ApiError(400, "Email already exists")))
    else
      match CastOrganization(id, name.value, ToLower(email.value), website, now)
      case None => (orgs, Err(ApiError(500, ValidationMessage)))
      case Some(o) => (orgs + [o], Ok(o))
  }

  /** `updateOrganization`: the records afterwards and the response. Fields
      left out of the body are left as they are; the setters run but the
      validators do not. */
  function UpdateOf(orgs: seq<Organization>, id: string, name: Option<string>, email: Option<string>,
                    website: Option<string>, now: int): (r: (seq<Organization>, Result<Organization>))
    ensures r.1.Err? ==> r.0 == orgs
    ensures r.1.Ok? ==> && |r.0| == |orgs| && Some(r.1.value.id) == Cast(id) && r.1.value in r.0
                        && r.1.value.updatedAt == now
  {
    match Cast(id)
    case None => (orgs, Err(ApiError(500, CastErrorMessage)))
    case Some(oid) =>
      match IndexOfId(orgs, oid)
      case None => (orgs, Err(ApiError(404, "Organization not found")))
      case Some(k) =>
        if email.None? then (orgs, Err(ApiError(500, MissingEmailMessage)))
        else
          var key := EmailKey(ToLower(email.value));
          if exists j :: 0 <= j < |orgs| && j != k && orgs[j].email == key then
            (orgs, Err(ApiError(500, DuplicateKeyMessage)))
          else
            var o := orgs[k];
            var updated := o.(name := if name.Some? then Trim(name.value) else o.name,
                              email := key,
                              website := if website.Some? then TrimOptional(website) else o.website,
                              updatedAt := now);
            assert orgs[k := updated][k] == updated;
            (orgs[k := updated], Ok(updated))
  }

  /** `deleteOrganization`: the records afterwards and the response. */
  function DeleteOf(orgs: seq<Organization>, id: string): (r: (seq<Organization>, Result<Organization>))
    ensures r.1.Err? ==> r.0 == orgs
    ensures r.1.Ok? ==> r.1.value in orgs && Some(r.1.value.id) == Cast(id) && |r.0| + 1 == |orgs|
  {
    match Cast(id)
    case None => (orgs, Err(ApiError(500, CastErrorMessage)))
    case Some(oid) =>
      match IndexOfId(orgs, oid)
      case None => (orgs, Err(ApiError(404, "Organization not deleted")))
      case Some(k) => (orgs[..k] + orgs[k + 1..], Ok(orgs[k]))
  }

  /** `getOrganizationById`: a missing organization is a 500, not a 404. */
  function GetOrganizationById(orgs: seq<Organization>, id: string): (r: Result<Organization>)
    ensures Cast(id).None? ==> r == Err(ApiError(500, CastErrorMessage))
    ensures Cast(id).Some? ==>
              (r.Ok? <==> exists k :: 0 <= k < |orgs| && orgs[k].id == Cast(id).value)
    ensures r.Ok? ==> r.value in orgs && Some(r.value.id) == Cast(id)
    ensures Cast(id).Some? && r.Err? ==> r == Err(ApiError(500, "Internal Server Error"))
  {
    match Cast(id)
    case None => Err(ApiError(500, CastErrorMessage))
    case Some(oid) =>
      match IndexOfId(orgs, oid)
      case None => Err(ApiError(500, "Internal Server Error"))
      case Some(k) => Ok(orgs[k])
  }

  datatype OrgPage = OrgPage(count: nat, organization: seq<Organization>, message: string)

  /** The organizations the search selects. The `$regex` match on name,
      email and website is the database's, given here as `hit`. */
  function Search(orgs: seq<Organization>, search: Option<string>, hit: Organization -> bool): (r: seq<Organization>)
    ensures !Truthy(search) ==> r == orgs
    ensures forall o :: o in r <==> o in orgs && (Truthy(search) ==> hit(o))
    ensures |r| <= |orgs|
  {
    if !Truthy(search) || orgs == [] then orgs
    else (if hit(orgs[0]) then [orgs[0]] else []) + Search(orgs[1..], search, hit)
  }

  function ListMessage(count: nat, search: Option<string>): (m: string)
    ensures count != 0 <==> m == "Organization list fetched successfully"
    ensures count == 0 && !Truthy(search) ==> m == "No organizations found"
    ensures count == 0 && Truthy(search) ==>
              m == "No matching organization found for the keyword \"" + search.value + "\""
  {
    if count != 0 then "Organization list fetched successfully"
    else if Truthy(search) then "No matching organization found for the keyword \"" + search.value + "\""
    else "No organizations found"
  }

  /** `listOrganization`. `page` and `perPage` are what `parseInt` makes of
      the query parameters, `None` when they are missing: the defaults are 1
      and 10, and nothing caps `perPage`. */
  function ListOrganizations(orgs: seq<Organization>, search: Option<string>, hit: Organization -> bool,
                             page: Option<int>, perPage: Option<int>): (r: Result<OrgPage>)
    ensures r.Err? <==> (page.GetOr(1) - 1) * perPage.GetOr(10) < 0
    ensures r.Err? ==> r.error == ApiError(500, NegativeSkipMessage)
    ensures r.Ok? ==> |r.value.organization| <= r.value.count <= |orgs|
  {
    var pageNum := page.GetOr(1);
    var limitNum := perPage.GetOr(10);
    var skip := (pageNum - 1) * limitNum;
    var matched := Search(orgs, search, hit);
    match Window(matched, skip, limitNum)
    case None => Err(ApiError(500, NegativeSkipMessage))
    case Some(items) => Ok(OrgPage(|matched|, items, ListMessage(|matched|, search)))
  }

  /** The listing counts every match, returns the matches from position
      `(page - 1) * perPage` on, as many as are left up to `perPage` (which
      nothing caps; 0 means all, a negative one its absolute value), and says
      which case an empty result is; a negative skip (page 0, or a negative
      `perPage`) fails with 500. */
  lemma ListOrganizationsSpec(orgs: seq<Organization>, search: Option<string>, hit: Organization -> bool,
                              page: Option<int>, perPage: Option<int>)
    ensures var r := ListOrganizations(orgs, search, hit, page, perPage);
      var pageNum := page.GetOr(1);
      var limitNum := perPage.GetOr(10);
      var matched := Search(orgs, search, hit);
      && (r.Ok? <==> (pageNum - 1) * limitNum >= 0)
      && (r.Ok? ==> && r.value.count == |matched|
                    && (limitNum > 0 ==> |r.value.organization| <= limitNum)
                    && (forall o :: o in r.value.organization ==> o in orgs && (Truthy(search) ==> hit(o)))
                    && (r.value.count == 0 <==> r.value.message != "Organization list fetched successfully"))
      && (r.Ok? ==> var skip := (pageNum - 1) * limitNum;
                    var left := if skip <= |matched| then |matched| - skip else 0;
                    && |r.value.organization| == (if limitNum == 0 || Abs(limitNum) >= left then left else Abs(limitNum))
                    && forall k :: 0 <= k < |r.value.organization| ==>
                         skip + k < |matched| && r.value.organization[k] == matched[skip + k])
      && (page.None? && perPage.None? && r.Ok? ==>
            r.value.organization == matched[..if |matched| < 10 then |matched| else 10])
  {
    var matched := Search(orgs, search, hit);
    var r := ListOrganizations(orgs, search, hit, page, perPage);
    if r.Ok? {
      var skip := (page.GetOr(1) - 1) * perPage.GetOr(10);
      var items := r.value.organization;
      forall o | o in items ensures o in matched {
        var k :| 0 <= k < |items| && items[k] == o;
        assert matched[skip + k] == o;
      }
      WindowFull(matched, skip, perPage.GetOr(10));
    }
  }

  /** Appending an organization with a fresh id and an email in stored form
      that no stored organization holds keeps the invariant. */
  lemma ValidAppend(orgs: seq<Organization>, o: Organization)
    requires ValidOrganizations(orgs) && FreshId(orgs, o.id) && !HasEmail(orgs, o.email) && StoredEmail(o.email)
    ensures ValidOrganizations(orgs + [o])
  {
    var after := orgs + [o];
    forall i, j | 0 <= i < j < |after| ensures after[i].id != after[j].id && after[i].email != after[j].email {
      if j == |orgs| {
        assert after[i] == orgs[i];
      }
    }
  }

  /** Replacing the organization at `k` by one with the same id and an email
      in stored form that no other organization holds keeps the invariant. */
  lemma ValidReplace(orgs: seq<Organization>, k: nat, o: Organization)
    requires ValidOrganizations(orgs) && k < |orgs| && o.id == orgs[k].id && StoredEmail(o.email)
    requires forall j :: 0 <= j < |orgs| && j != k ==> orgs[j].email != o.email
    ensures ValidOrganizations(orgs[k := o])
  {
  }

  /** Removing one organization keeps the invariant. */
  lemma ValidRemove(orgs: seq<Organization>, k: nat)
    requires ValidOrganizations(orgs) && k < |orgs|
    ensures ValidOrganizations(orgs[..k] + orgs[k + 1..])
  {
    var after := orgs[..k] + orgs[k + 1..];
    forall i | 0 <= i < |after| ensures after[i] == orgs[if i < k then i else i + 1] {
    }
  }

  /** The Organization collection. */
  class OrganizationCollection {
    var orgs: seq<Organization>

    ghost predicate Valid()
      reads this
    {
      ValidOrganizations(orgs)
    }

    constructor()
      ensures Valid() && orgs == []
    {
      orgs := [];
    }

    /** `createOrganization`, with the `_id` the new document receives. */
    method Create(name: Option<string>, email: Option<string>, website: Option<string>, id: ObjectId, now: int)
      returns (r: Result<Organization>)
      requires Valid() && FreshId(orgs, id)
      modifies this
      ensures Valid()
      ensures (orgs, r) == CreateOf(old(orgs), name, email, website, id, now)
    {
      if !Truthy(email) {
        return Err(ApiError(400, "Email is required"));
      }
      if !Truthy(name) {
        return Err(ApiError(400, "Name is required"));
      }
      var key := EmailKey(ToLower(email.value));
      if HasEmail(orgs, key) {
        return Err(ApiError(400, "Email already exists"));
      }
      var cast := CastOrganization(id, name.value, ToLower(email.value), website, now);
      if cast.None? {
        return Err(ApiError(500, ValidationMessage));
      }
      EmailKeyIdempotent(email.value);
      ValidAppend(orgs, cast.value);
      orgs := orgs + [cast.value];
      r := Ok(cast.value);
    }

    /** `updateOrganization`. */
    method Update(id: string, name: Option<string>, email: Option<string>, website: Option<string>, now: int)
      returns (r: Result<Organization>)
      requires Valid()
      modifies this
      ensures Valid()
      ensures (orgs, r) == UpdateOf(old(orgs), id, name, email, website, now)
    {
      var oid := Cast(id);
      if oid.None? {
        return Err(ApiError(500, CastErrorMessage));
      }
      var k := IndexOfId(orgs, oid.value);
      if k.None? {
        return Err(ApiError(404, "Organization not found"));
      }
      if email.None? {
        return Err(ApiError(500, MissingEmailMessage));
      }
      var key := EmailKey(ToLower(email.value));
      if exists j :: 0 <= j < |orgs| && j != k.value && orgs[j].email == key {
        return Err(ApiError(500, DuplicateKeyMessage));
      }
      var o := orgs[k.value];
      var updated := o.(name := if name.Some? then Trim(name.value) else o.name,
                        email := key,
                        website := if website.Some? then TrimOptional(website) else o.website,
                        updatedAt := now);
      EmailKeyIdempotent(ToLower(email.value));
      ValidReplace(orgs, k.value, updated);
      orgs := orgs[k.value := updated];
      r := Ok(updated);
    }

    /** `deleteOrganization`. */
    method Delete(id: string) returns (r: Result<Organization>)
      requires Valid()
      modifies this
      ensures Valid()
      ensures (orgs, r) == DeleteOf(old(orgs), id)
    {
      var oid := Cast(id);
      if oid.None? {
        return Err(ApiError(500, CastErrorMessage));
      }
      var k := IndexOfId(orgs, oid.value);
      if k.None? {
        return Err(ApiError(404, "Organization not deleted"));
      }
      r := Ok(orgs[k.value]);
      ValidRemove(orgs, k.value);
      orgs := orgs[..k.value] + orgs[k.value + 1..];
    }
  }

  /** Create checks the email before the name, refuses an email already
      stored (compared lowercased and trimmed) with 400 and stores nothing
      then; it succeeds exactly when both are given, the email is new and
      the schema accepts the trimmed name and email. A created organization
      conforms to the schema and holds the stored form of its fields. */
  lemma CreateSpec(orgs: seq<Organization>, name: Option<string>, email: Option<string>,
                   website: Option<string>, id: ObjectId, now: int)
    ensures var (after, r) := CreateOf(orgs, name, email, website, id, now);
      && (!Truthy(email) ==> r == Err(ApiError(400, "Email is required")))
      && (Truthy(email) && !Truthy(name) ==> r == Err(ApiError(400, "Name is required")))
      && (Truthy(email) && HasEmail(orgs, EmailKey(email.value)) ==>
            r.Err? && r.error.statusCode == 400)
      && (Truthy(email) && Truthy(name) && HasEmail(orgs, EmailKey(email.value)) ==>
            r == Err(ApiError(400, "Email already exists")))
      && (r.Ok? <==> && Truthy(email) && Truthy(name) && !HasEmail(orgs, EmailKey(email.value))
                     && Trim(name.value) != "" && |Trim(name.value)| <= MaxNameLength
                     && EmailKey(email.value) != "")
      && (r.Err? ==> after == orgs)
      && (r.Ok? ==> after == orgs + [r.value] && Conforms(r.value) && r.value.id == id
                    && r.value.email == EmailKey(email.value) && !HasEmail(orgs, r.value.email)
                    && r.value.name == Trim(name.value) && r.value.website == TrimOptional(website))
  {
    if Truthy(email) {
      EmailKeyIdempotent(email.value);
    }
  }

  /** Update answers a malformed id with 500 and an id no organization has
      with 404, then a missing email with 500; it succeeds exactly when the
      organization exists, an email is given and no other organization holds
      its stored form. */
  lemma UpdateSucceedsIff(orgs: seq<Organization>, id: string, name: Option<string>, email: Option<string>,
                          website: Option<string>, now: int)
    requires ValidOrganizations(orgs)
    ensures var r := UpdateOf(orgs, id, name, email, website, now).1;
      && (Cast(id).None? ==> r == Err(ApiError(500, CastErrorMessage)))
      && (Cast(id).Some? && FreshId(orgs, Cast(id).value) ==> r == Err(ApiError(404, "Organization not found")))
      && (Cast(id).Some? && !FreshId(orgs, Cast(id).value) && email.None? ==>
            r == Err(ApiError(500, MissingEmailMessage)))
      && (r.Ok? <==> && Cast(id).Some? && !FreshId(orgs, Cast(id).value) && email.Some?
                     && !exists j :: 0 <= j < |orgs| && orgs[j].id != Cast(id).value
                                     && orgs[j].email == EmailKey(email.value))
  {
    if email.Some? {
      EmailKeyIdempotent(email.value);
    }
  }

  /** Update changes only the organization with that id, and only the fields
      the body gives (the email always), trimmed; every other organization is
      left as it was. */
  lemma UpdateLeavesOthers(orgs: seq<Organization>, id: string, name: Option<string>, email: Option<string>,
                           website: Option<string>, now: int)
    requires ValidOrganizations(orgs)
    ensures var res := UpdateOf(orgs, id, name, email, website, now);
      && (res.1.Err? ==> res.0 == orgs)
      && (res.1.Ok? ==> && |res.0| == |orgs|
                        && Some(res.1.value.id) == Cast(id)
                        && res.1.value.email == EmailKey(email.value)
                        && (name.Some? ==> res.1.value.name == Trim(name.value))
                        && (website.Some? ==> res.1.value.website == TrimOptional(website))
                        && res.1.value.updatedAt == now
                        && (forall k :: 0 <= k < |orgs| && orgs[k].id == res.1.value.id ==>
                              && res.0[k] == res.1.value && res.1.value.createdAt == orgs[k].createdAt
                              && (name.None? ==> res.1.value.name == orgs[k].name)
                              && (website.None? ==> res.1.value.website == orgs[k].website))
                        && (forall k :: 0 <= k < |orgs| && orgs[k].id != res.1.value.id ==> res.0[k] == orgs[k]))
  {
    var res := UpdateOf(orgs, id, name, email, website, now);
    if res.1.Ok? {
      var k := IndexOfId(orgs, Cast(id).value).value;
      EmailKeyIdempotent(email.value);
      assert res.0 == orgs[k := res.1.value];
    }
  }

  /** Removing the organization at `k` takes one copy of it away. */
  lemma RemoveOrganizationCount(orgs: seq<Organization>, k: nat)
    requires k < |orgs|
    ensures multiset(orgs[..k] + orgs[k + 1..]) + multiset{orgs[k]} == multiset(orgs)
  {
    assert orgs == orgs[..k] + [orgs[k]] + orgs[k + 1..];
  }

  /** Removing the organization at `k`, whose id no other one holds, keeps
      exactly the others. */
  lemma RemoveOrganization(orgs: seq<Organization>, k: nat)
    requires k < |orgs|
    requires forall i, j :: 0 <= i < j < |orgs| ==> orgs[i].id != orgs[j].id
    ensures forall o :: o in orgs[..k] + orgs[k + 1..] <==> o in orgs && o.id != orgs[k].id
  {
    var after := orgs[..k] + orgs[k + 1..];
    forall o | o in orgs && o.id != orgs[k].id ensures o in after {
      var m :| 0 <= m < |orgs| && orgs[m] == o;
      if m < k { assert after[m] == o; } else { assert after[m - 1] == o; }
    }
    forall o | o in after ensures o in orgs && o.id != orgs[k].id {
      var m :| 0 <= m < |after| && after[m] == o;
      var m' := if m < k then m else m + 1;
      assert orgs[m'] == o;
      if m' < k { assert orgs[m'].id != orgs[k].id; } else { assert orgs[k].id != orgs[m'].id; }
    }
  }

  /** Delete answers a malformed id with 500 and succeeds exactly when an
      organization has the id, answering 404 otherwise; it removes exactly
      that organization and keeps every other one. */
  lemma DeleteRemovesExactly(orgs: seq<Organization>, id: string)
    requires ValidOrganizations(orgs)
    ensures var res := DeleteOf(orgs, id);
      && (Cast(id).None? ==> res.1 == Err(ApiError(500, CastErrorMessage)))
      && (Cast(id).Some? ==> (res.1.Ok? <==> !FreshId(orgs, Cast(id).value)))
      && (Cast(id).Some? && FreshId(orgs, Cast(id).value) ==> res.1 == Err(ApiError(404, "Organization not deleted")))
      && (res.1.Err? ==> res.0 == orgs)
      && (res.1.Ok? ==> && Some(res.1.value.id) == Cast(id)
                        && multiset(res.0) + multiset{res.1.value} == multiset(orgs)
                        && forall o :: o in res.0 <==> o in orgs && o.id != res.1.value.id)
  {
    var res := DeleteOf(orgs, id);
    if res.1.Ok? {
      var k := IndexOfId(orgs, Cast(id).value).value;
      RemoveOrganizationCount(orgs, k);
      RemoveOrganization(orgs, k);
    }
  }
}
