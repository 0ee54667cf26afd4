/** The Project record of backend/src/models/project.model.ts: the registry
    the API-key middleware looks keys up in. */
module ProjectModel {
  import opened Wrappers
  import opened JsString
  import opened ObjectIds

  const MaxNameLength: nat := 100
  const MaxDescriptionLength: nat := 500

  datatype Project = Project(
    id: ObjectId,
    name: string,
    description: Option<string>,
    organizationId: ObjectId,
    apiKey: string,
    createdAt: int,
    updatedAt: int)

  /** What the schema guarantees of a stored project: a trimmed, non-empty
      name of at most 100 characters, an optional trimmed description of at
      most 500, and a non-empty API key. */
  predicate Conforms(p: Project) {
    && p.name != "" && IsTrimmed(p.name) && |p.name| <= MaxNameLength
    && (p.description.Some? ==> IsTrimmed(p.description.value) && |p.description.value| <= MaxDescriptionLength)
    && p.apiKey != ""
  }

  /** The schema applied to a new project: the trim setters run, then the
      validators (`required`, `maxlength`); `None` is a validation failure. */
  function CastProject(id: ObjectId, name: string, description: Option<string>, organizationId: Option<ObjectId>,
                       apiKey: Option<string>, now: int): (r: Option<Project>)
    ensures r.Some? <==> && Trim(name) != "" && |Trim(name)| <= MaxNameLength
                         && (description.Some? ==> |Trim(description.value)| <= MaxDescriptionLength)
                         && organizationId.Some? && Truthy(apiKey)
    ensures r.Some? ==> Conforms(r.value) && r.value.id == id && r.value.apiKey == apiKey.value
    ensures r.Some? ==> r.value.name == Trim(name) && r.value.description == TrimOptional(description)
    ensures r.Some? ==> r.value.organizationId == organizationId.value && r.value.createdAt == now
  {
    TrimSpec(name);
    var desc := TrimOptional(description);
    if Trim(name) == "" || |Trim(name)| > MaxNameLength then None
    else if desc.Some? && |desc.value| > MaxDescriptionLength then None
    else if organizationId.None? || !Truthy(apiKey) then None
    else Some(Project(id, Trim(name), desc, organizationId.value, apiKey.value, now, now))
  }

  /** The unique index on `apiKey`. */
  predicate UniqueApiKeys(projects: seq<Project>) {
    forall i, j :: 0 <= i < j < |projects| ==> projects[i].apiKey != projects[j].apiKey
  }

  /** `Project.findOne({ apiKey })`: the first project holding the key. */
  function FindByApiKey(projects: seq<Project>, key: string): (r: Option<Project>)
    ensures r.Some? ==> r.value in projects && r.value.apiKey == key
    ensures r.None? <==> forall p :: p in projects ==> p.apiKey != key
  {
    if projects == [] then None
    else if projects[0].apiKey == key then Some(projects[0])
    else
      var rest := FindByApiKey(projects[1..], key);
      assert forall p :: p in projects ==> p == projects[0] || p in projects[1..];
      rest
  }

  /** With unique keys the lookup is determined: whichever project holds the
      key is the one found. */
  lemma {:induction false} LookupIsDeterministic(projects: seq<Project>, key: string, p: Project)
    requires UniqueApiKeys(projects) && p in projects && p.apiKey == key
    ensures FindByApiKey(projects, key) == Some(p)
  {
    if projects[0] != p {
      var rest := projects[1..];
      assert p in rest;
      assert UniqueApiKeys(rest) by {
        forall i, j | 0 <= i < j < |rest| ensures rest[i].apiKey != rest[j].apiKey {
          assert rest[i] == projects[i + 1] && rest[j] == projects[j + 1];
        }
      }
      var k :| 0 <= k < |projects| && projects[k] == p;
      assert k > 0;
      LookupIsDeterministic(rest, key, p);
    }
  }
}
