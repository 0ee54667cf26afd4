/** The `authenticateApiKey` middleware of
    backend/src/middleware/apiKeyAuth.ts: it takes the API key from the
    request headers, checks its prefix, looks the project up, and stamps the
    request with the project's tenant. */
module ApiKeyAuth {
  import opened Wrappers
  import opened JsString
  import opened ObjectIds
  import opened ProjectModel
  import opened OrganizationModel
  import opened EventNormalize

  const BearerPrefix: string := "Bearer "
  const KeyPrefix: string := "sk_"

  const MissingKeyMessage: string := "API key is required in headers (X-API-Key)"
  const BadFormatMessage: string := "Invalid API key format"
  const UnknownKeyMessage: string := "Invalid or inactive API key"
  /** The `TypeError` raised when `populate` finds no organization. */
  const MissingOrganizationMessage: string := "Cannot read properties of null (reading '_id')"

  /** The two headers the middleware reads; `None` is a missing header. */
  datatype Headers = Headers(xApiKey: Option<string>, authorization: Option<string>)

  /** The key: `x-api-key` when it is truthy, otherwise the Authorization
      header with its first `"Bearer "` removed. */
  function ExtractApiKey(h: Headers): (r: Option<string>)
    ensures Truthy(h.xApiKey) ==> r == h.xApiKey
    ensures !Truthy(h.xApiKey) ==> (r.Some? <==> h.authorization.Some?)
    ensures !Truthy(h.xApiKey) && h.authorization.Some? ==>
              r.value == ReplaceFirst(h.authorization.value, BearerPrefix, "")
  {
    if Truthy(h.xApiKey) then h.xApiKey
    else if h.authorization.Some? then Some(ReplaceFirst(h.authorization.value, BearerPrefix, ""))
    else None
  }

  /** What a successful lookup stamps on the request. */
  datatype Resolved = Resolved(organizationId: string, projectId: string, project: Project)

  /** Whether `populate` finds the project's organization. */
  predicate HasOrganization(orgs: seq<Organization>, id: ObjectId) {
    exists k :: 0 <= k < |orgs| && orgs[k].id == id
  }

  /** The middleware's decision: the tenant to stamp, or the error passed to
      `next`. */
  function Resolve(h: Headers, projects: seq<Project>, orgs: seq<Organization>): (r: Result<Resolved>)
    ensures r.Err? ==> r.error.statusCode == 401 || r.error == ApiError(500, MissingOrganizationMessage)
    ensures !Truthy(ExtractApiKey(h)) ==> r == Err(ApiError(401, MissingKeyMessage))
    ensures r.Ok? ==> && r.value.project in projects && r.value.project.apiKey == ExtractApiKey(h).value
                      && StartsWith(r.value.project.apiKey, KeyPrefix)
                      && HasOrganization(orgs, r.value.project.organizationId)
  {
    var apiKey := ExtractApiKey(h);
    if !Truthy(apiKey) then Err(ApiError(401, MissingKeyMessage))
    else if !StartsWith(apiKey.value, KeyPrefix) then Err(ApiError(401, BadFormatMessage))
    else
      match FindByApiKey(projects, apiKey.value)
      case None => Err(ApiError(401, UnknownKeyMessage))
      case Some(p) =>
        if !HasOrganization(orgs, p.organizationId) then Err(ApiError(500, MissingOrganizationMessage))
        else Ok(Resolved(ToString(p.organizationId), ToString(p.id), p))
  }

  /** The call the middleware ends with: `next()` or `next(error)`. */
  datatype NextCall = Next | NextWithError(error: ApiError)

  /** The request fields the middleware assigns. */
  class Request {
    var organizationId: Option<string>
    var projectId: Option<string>
    var project: Option<Project>

    constructor()
      ensures organizationId.None? && projectId.None? && project.None?
    {
      organizationId := None;
      projectId := None;
      project := None;
    }
  }

  /** `authenticateApiKey`: on success the request carries the tenant and
      `next()` is called; otherwise the request is untouched and the error
      goes to `next`. */
  method AuthenticateApiKey(req: Request, h: Headers, projects: seq<Project>, orgs: seq<Organization>)
    returns (next: NextCall)
    modifies req
    ensures Resolve(h, projects, orgs).Ok? ==>
              var t := Resolve(h, projects, orgs).value;
              && next == Next
              && req.organizationId == Some(t.organizationId)
              && req.projectId == Some(t.projectId)
              && req.project == Some(t.project)
    ensures Resolve(h, projects, orgs).Err? ==>
              next == NextWithError(Resolve(h, projects, orgs).error) && unchanged(req)
  {
    var apiKey := ExtractApiKey(h);
    if !Truthy(apiKey) {
      return NextWithError(ApiError(401, MissingKeyMessage));
    }
    if !StartsWith(apiKey.value, KeyPrefix) {
      return NextWithError(ApiError(401, BadFormatMessage));
    }
    var project := FindByApiKey(projects, apiKey.value);
    if project.None? {
      return NextWithError(ApiError(401, UnknownKeyMessage));
    }
    if !HasOrganization(orgs, project.value.organizationId) {
      return NextWithError(ApiError(500, MissingOrganizationMessage));
    }
    req.organizationId := Some(ToString(project.value.organizationId));
    req.projectId := Some(ToString(project.value.id));
    req.project := project;
    next := Next;
  }

  /** `"Bearer " + k` in the Authorization header yields `k`. */
  lemma BearerTokenExtracted(k: string)
    ensures ExtractApiKey(Headers(None, Some(BearerPrefix + k))) == Some(k)
  {
    var s := BearerPrefix + k;
    assert s[..|BearerPrefix|] == BearerPrefix;
    assert IndexOfFrom(s, BearerPrefix, 0) == Some(0);
    assert ReplaceFirst(s, BearerPrefix, "") == s[..0] + "" + s[|BearerPrefix|..];
    assert s[|BearerPrefix|..] == k;
    assert s[..0] + "" + s[|BearerPrefix|..] == k;
    var h := Headers(None, Some(s));
    assert !Truthy(h.xApiKey);
    assert ExtractApiKey(h) == Some(ReplaceFirst(s, BearerPrefix, ""));
  }

  /** The first `"Bearer "` is removed wherever it is: a header with text in
      front of it keeps that text. */
  lemma BearerRemovedAnywhere()
    ensures ExtractApiKey(Headers(None, Some("Token Bearer sk_1"))) == Some("Token sk_1")
  {
    var s := "Token Bearer sk_1";
    assert s[6..13] == BearerPrefix;
    assert IndexOfFrom(s, BearerPrefix, 6) == Some(6);
    assert s[5] != BearerPrefix[0];
    assert IndexOfFrom(s, BearerPrefix, 5) == Some(6);
    assert s[4] != BearerPrefix[0];
    assert IndexOfFrom(s, BearerPrefix, 4) == Some(6);
    assert s[3] != BearerPrefix[0];
    assert IndexOfFrom(s, BearerPrefix, 3) == Some(6);
    assert s[2] != BearerPrefix[0];
    assert IndexOfFrom(s, BearerPrefix, 2) == Some(6);
    assert s[1] != BearerPrefix[0];
    assert IndexOfFrom(s, BearerPrefix, 1) == Some(6);
    assert s[0] != BearerPrefix[0];
    assert IndexOfFrom(s, BearerPrefix, 0) == Some(6);
    assert s[..6] + "" + s[13..] == "Token sk_1";
  }

  /** An Authorization header without `"Bearer "` is taken as it is. */
  lemma PlainAuthorizationKept(h: Headers)
    requires !Truthy(h.xApiKey) && h.authorization.Some?
    requires forall k :: !OccursAt(h.authorization.value, BearerPrefix, k)
    ensures ExtractApiKey(h) == h.authorization
  {
  }

  /** A truthy `x-api-key` wins: the Authorization header is not read. */
  lemma XApiKeyTakesPrecedence(h: Headers, authorization: Option<string>, projects: seq<Project>, orgs: seq<Organization>)
    requires Truthy(h.xApiKey)
    ensures Resolve(h, projects, orgs) == Resolve(h.(authorization := authorization), projects, orgs)
  {
  }

  /** A key without the `sk_` prefix is refused before any lookup, whatever
      the registry holds. */
  lemma BadPrefixNeedsNoLookup(h: Headers, projects: seq<Project>, orgs: seq<Organization>)
    requires Truthy(ExtractApiKey(h)) && !StartsWith(ExtractApiKey(h).value, KeyPrefix)
    ensures Resolve(h, projects, orgs) == Err(ApiError(401, BadFormatMessage))
    ensures Resolve(h, projects, orgs) == Resolve(h, [], [])
  {
  }

  /** The middleware succeeds exactly when the key is present, has the
      prefix, and belongs to a project whose organization exists; the
      stamped ids are that project's, as strings that cast back to them, so
      the handlers after it see an authenticated tenant. Every failure but
      the missing organization is a 401. */
  lemma ResolveSpec(h: Headers, projects: seq<Project>, orgs: seq<Organization>)
    ensures var r := Resolve(h, projects, orgs);
      var key := ExtractApiKey(h);
      && (r.Ok? <==> && Truthy(key) && StartsWith(key.value, KeyPrefix)
                     && FindByApiKey(projects, key.value).Some?
                     && HasOrganization(orgs, FindByApiKey(projects, key.value).value.organizationId))
      && (r.Err? && r.error.statusCode != 401 ==> r.error == ApiError(500, MissingOrganizationMessage))
      && (r.Ok? ==> && r.value.project in projects && r.value.project.apiKey == key.value
                    && Cast(r.value.organizationId) == Some(r.value.project.organizationId)
                    && Cast(r.value.projectId) == Some(r.value.project.id)
                    && HasTenant(Tenant(Some(r.value.organizationId), Some(r.value.projectId))))
  {
    var r := Resolve(h, projects, orgs);
    if r.Ok? {
      CastToString(r.value.project.organizationId);
      CastToString(r.value.project.id);
    }
  }

  /** With the unique index on `apiKey`, a key resolves to the project that
      holds it. */
  lemma KeyResolvesToItsProject(h: Headers, projects: seq<Project>, orgs: seq<Organization>, p: Project)
    requires UniqueApiKeys(projects) && p in projects
    requires ExtractApiKey(h) == Some(p.apiKey) && StartsWith(p.apiKey, KeyPrefix)
    requires HasOrganization(orgs, p.organizationId)
    ensures Resolve(h, projects, orgs) == Ok(Resolved(ToString(p.organizationId), ToString(p.id), p))
  {
    LookupIsDeterministic(projects, p.apiKey, p);
  }
}
