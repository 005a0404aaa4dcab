/** Registered Resource Scopes: slugs, the canonical path, and the two-map registry. */
module ResourceScopes {
  import opened Wrappers
  import opened Strings

  datatype LifecycleState = Draft | Active | Suspended | Retired

  datatype Organization = Organization(organizationId: string, slug: string, state: LifecycleState)
  datatype BusinessUnit = BusinessUnit(
    businessUnitId: string, organizationId: string, slug: string, state: LifecycleState)
  datatype Team = Team(teamId: string, businessUnitId: string, slug: string, state: LifecycleState)
  datatype Project = Project(projectId: string, teamId: string, slug: string, state: LifecycleState)
  datatype Environment = Environment(
    environmentId: string, projectId: string, slug: string, state: LifecycleState)

  datatype ResourceScope = ResourceScope(
    scopeId: string,
    organization: Organization,
    businessUnit: BusinessUnit,
    team: Team,
    project: Project,
    environment: Environment,
    state: LifecycleState,
    version: nat)
  {
    /** `org:o:bu:b:team:t:project:p:env:e`. */
    function CanonicalPath(): string {
      Join(PathFields(Slugs()), ':')
    }

    function Slugs(): Address {
      Address(organization.slug, businessUnit.slug, team.slug, project.slug, environment.slug)
    }

    predicate IsCompleteAndActive() {
      && state.Active?
      && organization.state.Active? && businessUnit.state.Active? && team.state.Active?
      && project.state.Active? && environment.state.Active?
    }

    /** The constraints the record type enforces on construction, apart from slug shape. */
    predicate IsWellFormed() {
      && |scopeId| >= 8 && version >= 1
      && businessUnit.organizationId == organization.organizationId
      && team.businessUnitId == businessUnit.businessUnitId
      && project.teamId == team.teamId
      && environment.projectId == project.projectId
    }
  }

  /** The five slugs that address a scope. */
  datatype Address = Address(org: string, bu: string, team: string, project: string, env: string)

  function PathFields(a: Address): seq<string> {
    ["org", a.org, "bu", a.bu, "team", a.team, "project", a.project, "env", a.env]
  }

  // ---------- Slugs ----------

  /** The character tests a slug depends on; `lower` maps a string to its lower-case form. */
  datatype CharTests = CharTests(isAlpha: char -> bool, isAlnum: char -> bool, lower: string -> string)

  datatype SlugError = NotLowercase | BadCharacter

  function Slug(value: string, tests: CharTests): Result<string, SlugError> {
    if value == [] || |value| > 63 || value != tests.lower(value) then Err(NotLowercase)
    else if !tests.isAlpha(value[0]) || (exists c :: c in value && !tests.isAlnum(c) && c != '-') then
      Err(BadCharacter)
    else Ok(value)
  }

  predicate SlugsAccepted(a: Address, tests: CharTests) {
    && Slug(a.org, tests).Ok? && Slug(a.bu, tests).Ok? && Slug(a.team, tests).Ok?
    && Slug(a.project, tests).Ok? && Slug(a.env, tests).Ok?
  }

  /** A slug is kept as it is when it starts with a letter and has at most 63 lower-case letters, digits and hyphens. */
  lemma SlugAcceptedIff(value: string, tests: CharTests)
    ensures Slug(value, tests) == Ok(value) <==>
            && 1 <= |value| <= 63 && tests.lower(value) == value && tests.isAlpha(value[0])
            && forall i :: 0 <= i < |value| ==> value[i] == '-' || tests.isAlnum(value[i])
    ensures Slug(value, tests) == Err(NotLowercase) <==> |value| == 0 || |value| > 63 || tests.lower(value) != value
  {
    if Slug(value, tests).Ok? {
      forall i | 0 <= i < |value| ensures value[i] == '-' || tests.isAlnum(value[i]) {
        assert value[i] in value;
      }
    }
  }

  /** Accepted slugs determine the path and the path determines them. */
  lemma PathInjective(a: Address, b: Address, tests: CharTests)
    requires !tests.isAlnum(':')
    requires SlugsAccepted(a, tests) && SlugsAccepted(b, tests)
    ensures Join(PathFields(a), ':') == Join(PathFields(b), ':') <==> a == b
  {
    SplitOfJoin(PathFields(a), ':');
    SplitOfJoin(PathFields(b), ':');
    if PathFields(a) == PathFields(b) {
      assert PathFields(a)[1] == PathFields(b)[1] && PathFields(a)[3] == PathFields(b)[3]
          && PathFields(a)[5] == PathFields(b)[5] && PathFields(a)[7] == PathFields(b)[7]
          && PathFields(a)[9] == PathFields(b)[9];
    }
  }

  /** The path of a scope with accepted slugs names each level and its slug, from the organization down. */
  lemma CanonicalPathReads(scope: ResourceScope, tests: CharTests)
    requires !tests.isAlnum(':') && SlugsAccepted(scope.Slugs(), tests)
    ensures Split(scope.CanonicalPath(), ':') ==
            ["org", scope.organization.slug, "bu", scope.businessUnit.slug, "team", scope.team.slug,
             "project", scope.project.slug, "env", scope.environment.slug]
  {
    SplitOfJoin(PathFields(scope.Slugs()), ':');
  }

  // ---------- The registry ----------

  datatype Registry = Registry(byScopeId: map<string, ResourceScope>, scopeIdByPath: map<string, string>)

  datatype RegistryError = DuplicateCanonicalPath

  const EMPTY_REGISTRY := Registry(map[], map[])

  function Register(r: Registry, scope: ResourceScope): Result<Registry, RegistryError> {
    var path := scope.CanonicalPath();
    if path in r.scopeIdByPath && r.scopeIdByPath[path] != scope.scopeId then Err(DuplicateCanonicalPath)
    else
      var freed := if scope.scopeId in r.byScopeId
                   then r.scopeIdByPath - {r.byScopeId[scope.scopeId].CanonicalPath()}
                   else r.scopeIdByPath;
      Ok(Registry(r.byScopeId[scope.scopeId := scope], freed[path := scope.scopeId]))
  }

  function ResolveActive(r: Registry, scopeId: string): Option<ResourceScope> {
    if scopeId in r.byScopeId && r.byScopeId[scopeId].IsCompleteAndActive() then Some(r.byScopeId[scopeId]) else None
  }

  /** The scope and the five levels above it are active. */
  ghost predicate AllActive(scope: ResourceScope) {
    scope.organization.state == scope.businessUnit.state == scope.team.state == scope.project.state
    == scope.environment.state == scope.state == Active
  }

  /** The registry answers the record it holds exactly when no level of it is inactive. */
  lemma ResolveActiveMeaning(r: Registry, scopeId: string)
    ensures ResolveActive(r, scopeId).Some? <==> scopeId in r.byScopeId && AllActive(r.byScopeId[scopeId])
    ensures ResolveActive(r, scopeId).Some? ==> ResolveActive(r, scopeId) == Some(r.byScopeId[scopeId])
  {
  }

  /** The two maps are inverse to each other. */
  ghost predicate Inverse(r: Registry) {
    && (forall id :: id in r.byScopeId ==>
          && r.byScopeId[id].scopeId == id
          && r.byScopeId[id].CanonicalPath() in r.scopeIdByPath
          && r.scopeIdByPath[r.byScopeId[id].CanonicalPath()] == id)
    && (forall path :: path in r.scopeIdByPath ==>
          && r.scopeIdByPath[path] in r.byScopeId
          && r.byScopeId[r.scopeIdByPath[path]].CanonicalPath() == path)
  }

  lemma RegisterKeepsInverse(r: Registry, scope: ResourceScope)
    requires Inverse(r)
    ensures Register(r, scope).Ok? ==> Inverse(Register(r, scope).value)
  {
  }

  /** An accepted registration is answered at once if the record is active, and not at all if it is not. */
  lemma RegisteredIsResolved(r: Registry, scope: ResourceScope, scopeId: string)
    requires Register(r, scope).Ok?
    ensures ResolveActive(Register(r, scope).value, scopeId) ==
            if scopeId != scope.scopeId then ResolveActive(r, scopeId)
            else if AllActive(scope) then Some(scope) else None
  {
  }

  /** A sequence of registrations; a rejected one changes nothing. */
  function RegisterAll(r: Registry, scopes: seq<ResourceScope>): Registry {
    if scopes == [] then r
    else
      var before := RegisterAll(r, scopes[..|scopes| - 1]);
      match Register(before, scopes[|scopes| - 1])
      case Ok(after) => after
      case Err(_) => before
  }

  lemma {:induction false} MapsStayInverse(scopes: seq<ResourceScope>)
    ensures Inverse(RegisterAll(EMPTY_REGISTRY, scopes))
  {
    if scopes != [] {
      MapsStayInverse(scopes[..|scopes| - 1]);
      RegisterKeepsInverse(RegisterAll(EMPTY_REGISTRY, scopes[..|scopes| - 1]), scopes[|scopes| - 1]);
    }
  }

  /** The i-th submission was registered, not rejected. */
  ghost predicate Accepted(scopes: seq<ResourceScope>, i: nat)
    requires i < |scopes|
  {
    Register(RegisterAll(EMPTY_REGISTRY, scopes[..i]), scopes[i]).Ok?
  }

  /** The i-th submission is the last one with its id that was registered. */
  ghost predicate LastAccepted(scopes: seq<ResourceScope>, i: nat)
    requires i < |scopes|
  {
    && Accepted(scopes, i)
    && forall j :: i < j < |scopes| && scopes[j].scopeId == scopes[i].scopeId ==> !Accepted(scopes, j)
  }

  lemma AcceptedBefore(scopes: seq<ResourceScope>, i: nat)
    requires i < |scopes| - 1
    ensures Accepted(scopes[..|scopes| - 1], i) <==> Accepted(scopes, i)
  {
    assert scopes[..|scopes| - 1][..i] == scopes[..i];
  }

  /** The last accepted submission of an id is what the registry holds under it. */
  lemma {:induction false} LastAcceptedIsHeld(scopes: seq<ResourceScope>, i: nat)
    requires i < |scopes| && LastAccepted(scopes, i)
    ensures var r := RegisterAll(EMPTY_REGISTRY, scopes);
            scopes[i].scopeId in r.byScopeId && r.byScopeId[scopes[i].scopeId] == scopes[i]
  {
    var last := |scopes| - 1;
    assert scopes[..last] + [scopes[last]] == scopes;
    if i < last {
      forall j | i <= j < last ensures Accepted(scopes[..last], j) <==> Accepted(scopes, j) {
        AcceptedBefore(scopes, j);
      }
      LastAcceptedIsHeld(scopes[..last], i);
    }
  }

  lemma StillLastAccepted(scopes: seq<ResourceScope>, i: nat)
    requires i < |scopes| - 1 && LastAccepted(scopes[..|scopes| - 1], i)
    requires scopes[|scopes| - 1].scopeId == scopes[i].scopeId ==> !Accepted(scopes, |scopes| - 1)
    ensures LastAccepted(scopes, i)
  {
    var init := scopes[..|scopes| - 1];
    AcceptedBefore(scopes, i);
    forall j | i < j < |scopes| && scopes[j].scopeId == scopes[i].scopeId ensures !Accepted(scopes, j) {
      if j < |scopes| - 1 {
        assert init[j].scopeId == init[i].scopeId;
        AcceptedBefore(scopes, j);
      }
    }
  }

  /** And what it holds under an id was submitted with it and accepted last. */
  lemma {:induction false} HeldWasLastAccepted(scopes: seq<ResourceScope>, id: string) returns (i: nat)
    requires id in RegisterAll(EMPTY_REGISTRY, scopes).byScopeId
    ensures i < |scopes| && scopes[i].scopeId == id && LastAccepted(scopes, i)
    ensures RegisterAll(EMPTY_REGISTRY, scopes).byScopeId[id] == scopes[i]
  {
    var last := |scopes| - 1;
    if scopes[last].scopeId == id && Accepted(scopes, last) {
      i := last;
    } else {
      i := HeldWasLastAccepted(scopes[..last], id);
      StillLastAccepted(scopes, i);
    }
    LastAcceptedIsHeld(scopes, i);
  }

  ghost predicate AllSlugsAccepted(scopes: seq<ResourceScope>, tests: CharTests) {
    forall i :: 0 <= i < |scopes| ==> SlugsAccepted(scopes[i].Slugs(), tests)
  }

  /**
   * After any sequence of registrations and renames, a further registration is rejected exactly when
   * another scope already holds the same five slugs. So no address is ever held by two scopes.
   */
  lemma RejectedExactlyOnAddressClash(scopes: seq<ResourceScope>, scope: ResourceScope, tests: CharTests)
    requires !tests.isAlnum(':')
    requires AllSlugsAccepted(scopes, tests) && SlugsAccepted(scope.Slugs(), tests)
    ensures var r := RegisterAll(EMPTY_REGISTRY, scopes);
            Register(r, scope).Err? <==>
            exists id :: id in r.byScopeId && id != scope.scopeId && r.byScopeId[id].Slugs() == scope.Slugs()
  {
    var r := RegisterAll(EMPTY_REGISTRY, scopes);
    MapsStayInverse(scopes);
    if Register(r, scope).Err? {
      var id := r.scopeIdByPath[scope.CanonicalPath()];
      var i := HeldWasLastAccepted(scopes, id);
      PathInjective(r.byScopeId[id].Slugs(), scope.Slugs(), tests);
    }
  }

  lemma OneScopePerAddress(scopes: seq<ResourceScope>, id1: string, id2: string)
    requires id1 in RegisterAll(EMPTY_REGISTRY, scopes).byScopeId
    requires id2 in RegisterAll(EMPTY_REGISTRY, scopes).byScopeId
    requires RegisterAll(EMPTY_REGISTRY, scopes).byScopeId[id1].Slugs() ==
             RegisterAll(EMPTY_REGISTRY, scopes).byScopeId[id2].Slugs()
    ensures id1 == id2
  {
    MapsStayInverse(scopes);
  }

  /** The in-memory registry, with its two dictionaries updated in place. */
  class InMemoryReviewedResourceScopeRegistry {
    var byScopeId: map<string, ResourceScope>
    var scopeIdByPath: map<string, string>

    ghost function Maps(): Registry
      reads this
    {
      Registry(byScopeId, scopeIdByPath)
    }

    constructor ()
      ensures Maps() == EMPTY_REGISTRY
    {
      byScopeId, scopeIdByPath := map[], map[];
    }

    method RegisterReviewed(scope: ResourceScope) returns (error: Option<RegistryError>)
      requires Inverse(Maps())
      modifies this
      ensures Inverse(Maps())
      ensures error.None? <==>
              var path := scope.CanonicalPath();
              path in old(scopeIdByPath) ==> old(scopeIdByPath)[path] == scope.scopeId
      ensures error.None? ==> byScopeId == old(byScopeId)[scope.scopeId := scope]
      ensures error.Some? ==> byScopeId == old(byScopeId) && scopeIdByPath == old(scopeIdByPath)
      ensures error == (match Register(old(Maps()), scope) case Ok(_) => None case Err(e) => Some(e))
      ensures Maps() == (match Register(old(Maps()), scope) case Ok(after) => after case Err(_) => old(Maps()))
    {
      RegisterKeepsInverse(Maps(), scope);
      var path := scope.CanonicalPath();
      if path in scopeIdByPath && scopeIdByPath[path] != scope.scopeId {
        return Some(DuplicateCanonicalPath);
      }
      if scope.scopeId in byScopeId {
        scopeIdByPath := scopeIdByPath - {byScopeId[scope.scopeId].CanonicalPath()};
      }
      byScopeId := byScopeId[scope.scopeId := scope];
      scopeIdByPath := scopeIdByPath[path := scope.scopeId];
      return None;
    }
  }
}
