/** Role bindings on the Resource Scope hierarchy and the allow-only authorizer. */
module ScopeAccess {
  import opened Wrappers
  import opened Sequences
  import opened OrderedDicts
  import opened ResourceScopes

  datatype PrincipalKind = User | IdentityGroup | Service
  datatype Principal = Principal(kind: PrincipalKind, principalId: string)

  datatype Action = View | RequestProvision | ApproveProvision | Admin

  datatype TargetKind =
    | OnScope | OnOrganization | OnBusinessUnit | OnTeam | OnProject | OnEnvironment

  datatype Target = Target(kind: TargetKind, resourceId: string, inheritToDescendants: bool)

  datatype RoleBindingState = ActiveRole | RevokedRole

  datatype RoleBinding = RoleBinding(
    bindingId: string,
    principal: Principal,
    actions: set<Action>,
    target: Target,
    environmentIds: seq<string>,
    state: RoleBindingState,
    version: nat)

  /** What the membership, affiliation and group directories answer; the last two may be absent. */
  datatype Directory = Directory(
    memberships: set<(string, string)>,
    affiliations: Option<set<(Principal, string)>>,
    groups: Option<map<Principal, set<string>>>)

  datatype AuthorizationRequest = AuthorizationRequest(principal: Principal, action: Action, scopeId: string)
  datatype AuthorizationDecision = AuthorizationDecision(allowed: bool, matchedBindingIds: seq<string>)

  type RoleBindings = Dict<string, RoleBinding>

  function ActiveRoles(roles: RoleBindings): seq<RoleBinding> {
    Select(Values(roles), set b | b in Values(roles) && b.state.ActiveRole?)
  }

  predicate HasActiveMembership(dir: Directory, principal: Principal, scope: ResourceScope) {
    if !principal.kind.User? then
      dir.affiliations.Some? && (principal, scope.organization.organizationId) in dir.affiliations.value
    else (principal.principalId, scope.organization.organizationId) in dir.memberships
  }

  predicate PrincipalMatches(dir: Directory, holder: Principal, principal: Principal) {
    || holder == principal
    || (&& holder.kind.IdentityGroup? && dir.groups.Some?
        && principal in dir.groups.value && holder.principalId in dir.groups.value[principal])
  }

  predicate TargetMatches(target: Target, scope: ResourceScope) {
    match target.kind
    case OnScope => target.resourceId == scope.scopeId
    case OnEnvironment => target.resourceId == scope.environment.environmentId
    case OnOrganization => target.inheritToDescendants && scope.organization.organizationId == target.resourceId
    case OnBusinessUnit => target.inheritToDescendants && scope.businessUnit.businessUnitId == target.resourceId
    case OnTeam => target.inheritToDescendants && scope.team.teamId == target.resourceId
    case OnProject => target.inheritToDescendants && scope.project.projectId == target.resourceId
  }

  predicate BindingAllows(b: RoleBinding, req: AuthorizationRequest, scope: ResourceScope, dir: Directory) {
    && req.action in b.actions
    && PrincipalMatches(dir, b.principal, req.principal)
    && (b.environmentIds == [] || scope.environment.environmentId in b.environmentIds)
    && TargetMatches(b.target, scope)
  }

  function MatchingIds(roles: seq<RoleBinding>, req: AuthorizationRequest, scope: ResourceScope, dir: Directory)
    : seq<string>
  {
    if roles == [] then []
    else
      MatchingIds(roles[..|roles| - 1], req, scope, dir)
      + (if BindingAllows(roles[|roles| - 1], req, scope, dir) then [roles[|roles| - 1].bindingId] else [])
  }

  function Authorize(registry: Registry, roles: RoleBindings, dir: Directory, req: AuthorizationRequest)
    : AuthorizationDecision
  {
    match ResolveActive(registry, req.scopeId)
    case None => AuthorizationDecision(false, [])
    case Some(scope) =>
      if !HasActiveMembership(dir, req.principal, scope) then AuthorizationDecision(false, [])
      else
        var matched := MatchingIds(ActiveRoles(roles), req, scope, dir);
        AuthorizationDecision(matched != [], matched)
  }

  /** The id of the scope, or of the level of its hierarchy, that a target of this kind names. */
  ghost function LevelId(kind: TargetKind, scope: ResourceScope): string {
    match kind
    case OnOrganization => scope.organization.organizationId
    case OnBusinessUnit => scope.businessUnit.businessUnitId
    case OnTeam => scope.team.teamId
    case OnProject => scope.project.projectId
    case OnEnvironment => scope.environment.environmentId
    case OnScope => scope.scopeId
  }

  /** The record, field by field, grants the request on the scope. */
  ghost predicate Grants(b: RoleBinding, req: AuthorizationRequest, scope: ResourceScope, dir: Directory) {
    && b.state == ActiveRole && req.action in b.actions
    && (b.principal != req.principal ==>
          && b.principal.kind == IdentityGroup && dir.groups.Some? && req.principal in dir.groups.value
          && b.principal.principalId in dir.groups.value[req.principal])
    && (|b.environmentIds| > 0 ==> LevelId(OnEnvironment, scope) in b.environmentIds)
    && b.target.resourceId == LevelId(b.target.kind, scope)
    && (b.target.kind != OnScope && b.target.kind != OnEnvironment ==> b.target.inheritToDescendants)
  }

  /** The authorizer's answer, on the fields of the records and without any order of evaluation. */
  ghost predicate Holds(registry: Registry, roles: RoleBindings, dir: Directory, req: AuthorizationRequest) {
    && req.scopeId in registry.byScopeId
    && var scope := registry.byScopeId[req.scopeId];
       var organizationId := scope.organization.organizationId;
    && AllActive(scope)
    && (req.principal.kind == User ==> (req.principal.principalId, organizationId) in dir.memberships)
    && (req.principal.kind != User ==>
          dir.affiliations.Some? && (req.principal, organizationId) in dir.affiliations.value)
    && exists id :: id in roles.at && Grants(roles.at[id], req, scope, dir)
  }

  lemma {:induction false} MatchingIdsMeaning(
    roles: seq<RoleBinding>, req: AuthorizationRequest, scope: ResourceScope, dir: Directory)
    ensures forall id :: id in MatchingIds(roles, req, scope, dir) <==>
              exists b :: b in roles && b.bindingId == id && BindingAllows(b, req, scope, dir)
  {
    if roles != [] {
      MatchingIdsMeaning(roles[..|roles| - 1], req, scope, dir);
      assert roles == roles[..|roles| - 1] + [roles[|roles| - 1]];
    }
  }

  lemma ActiveRolesMeaning(roles: RoleBindings)
    ensures forall b :: b in ActiveRoles(roles) ==> exists key :: key in roles.at && roles.at[key] == b
    ensures forall b :: b in ActiveRoles(roles) ==> b.state.ActiveRole?
    ensures forall key :: key in roles.at && roles.at[key].state.ActiveRole? ==> roles.at[key] in ActiveRoles(roles)
  {
    SelectMeaning(Values(roles), set b | b in Values(roles) && b.state.ActiveRole?);
    forall b | b in Values(roles) ensures exists key :: key in roles.at && roles.at[key] == b {
      var i :| 0 <= i < |Values(roles)| && Values(roles)[i] == b;
      assert roles.at[roles.keys[i]] == b;
    }
    forall key | key in roles.at ensures roles.at[key] in Values(roles) {
      ValuesHolds(roles, key);
    }
  }

  ghost predicate GrantedUnder(
    key: string, id: string, roles: RoleBindings, req: AuthorizationRequest, scope: ResourceScope, dir: Directory)
  {
    key in roles.at && roles.at[key].bindingId == id && Grants(roles.at[key], req, scope, dir)
  }

  /** The ids that match are those of the active bindings that apply, and of no others. */
  lemma MatchingIdsOfActive(
    roles: RoleBindings, req: AuthorizationRequest, scope: ResourceScope, dir: Directory, id: string)
    ensures id in MatchingIds(ActiveRoles(roles), req, scope, dir) <==>
            exists key :: GrantedUnder(key, id, roles, req, scope, dir)
  {
    var active := ActiveRoles(roles);
    ActiveRolesMeaning(roles);
    MatchingIdsMeaning(active, req, scope, dir);
    if b :| b in active && b.bindingId == id && BindingAllows(b, req, scope, dir) {
      var key :| key in roles.at && roles.at[key] == b;
      assert GrantedUnder(key, id, roles, req, scope, dir);
    }
    if key :| GrantedUnder(key, id, roles, req, scope, dir) {
      assert roles.at[key] in active;
    }
  }

  /** Access is allowed exactly when an active binding applies to an active scope and a current member. */
  lemma AuthorizeIffHolds(registry: Registry, roles: RoleBindings, dir: Directory, req: AuthorizationRequest)
    ensures Authorize(registry, roles, dir, req).allowed <==> Holds(registry, roles, dir, req)
  {
    if ResolveActive(registry, req.scopeId).Some? {
      var scope := ResolveActive(registry, req.scopeId).value;
      var matched := MatchingIds(ActiveRoles(roles), req, scope, dir);
      if matched != [] {
        assert matched[0] in matched;
        MatchingIdsOfActive(roles, req, scope, dir, matched[0]);
      }
      if id :| id in roles.at && Grants(roles.at[id], req, scope, dir) {
        assert GrantedUnder(id, roles.at[id].bindingId, roles, req, scope, dir);
        MatchingIdsOfActive(roles, req, scope, dir, roles.at[id].bindingId);
      }
    }
  }

  /** The ids a decision reports are those of the active bindings that apply, and of no others. */
  lemma MatchedIdsMeaning(
    registry: Registry, roles: RoleBindings, dir: Directory, req: AuthorizationRequest, id: string)
    requires Authorize(registry, roles, dir, req).allowed
    ensures req.scopeId in registry.byScopeId
    ensures id in Authorize(registry, roles, dir, req).matchedBindingIds <==>
            exists key :: GrantedUnder(key, id, roles, req, registry.byScopeId[req.scopeId], dir)
  {
    MatchingIdsOfActive(roles, req, registry.byScopeId[req.scopeId], dir, id);
  }

  /** The store holds the active record under a key other than the one given. */
  ghost predicate ActiveUnderAnother(roles: RoleBindings, id: string, b: RoleBinding) {
    b.state.ActiveRole? && exists key :: key != id && key in roles.at && roles.at[key] == b
  }

  lemma ReplacedRoles(roles: RoleBindings, b: RoleBinding, other: RoleBinding)
    requires other != b
    ensures other in ActiveRoles(Put(roles, b.bindingId, b)) <==> ActiveUnderAnother(roles, b.bindingId, other)
  {
    var after := Put(roles, b.bindingId, b);
    ActiveRolesMeaning(after);
    if other in ActiveRoles(after) {
      var key :| key in after.at && after.at[key] == other;
      assert key != b.bindingId && roles.at[key] == other;
    }
    if ActiveUnderAnother(roles, b.bindingId, other) {
      var key :| key != b.bindingId && key in roles.at && roles.at[key] == other;
      assert after.at[key] == other;
    }
  }

  /** The in-memory role-binding store: a dictionary replaced key by key. */
  class InMemoryRoleBindingStore {
    var bindings: RoleBindings

    constructor (initial: seq<RoleBinding>)
      ensures bindings == PutAll(initial)
      ensures forall i :: 0 <= i < |initial| && IsLastWithId(initial, i) ==>
                initial[i].bindingId in bindings.at && bindings.at[initial[i].bindingId] == initial[i]
      ensures forall id :: id in bindings.at ==>
                exists i :: 0 <= i < |initial| && initial[i].bindingId == id && IsLastWithId(initial, i)
    {
      forall i | 0 <= i < |initial| && IsLastWithId(initial, i) {
        PutAllHoldsLast(initial, i);
      }
      forall id | id in PutAll(initial).at
        ensures exists i :: 0 <= i < |initial| && initial[i].bindingId == id && IsLastWithId(initial, i)
      {
        var i := PutAllHoldsOnly(initial, id);
      }
      bindings := PutAll(initial);
    }

    /** The record answers for its id in its old place, and is consulted from now on exactly when it is active. */
    method Replace(b: RoleBinding)
      modifies this
      ensures bindings.at == old(bindings.at)[b.bindingId := b]
      ensures bindings.keys == if b.bindingId in old(bindings.at) then old(bindings.keys)
                               else old(bindings.keys) + [b.bindingId]
      ensures b in ActiveRoles(bindings) <==> b.state.ActiveRole?
      ensures forall other :: other != b ==>
                (other in ActiveRoles(bindings) <==> ActiveUnderAnother(old(bindings), b.bindingId, other))
    {
      ghost var before := bindings;
      bindings := Put(bindings, b.bindingId, b);
      ActiveRolesMeaning(bindings);
      assert bindings.at[b.bindingId] == b;
      forall other | other != b
        ensures other in ActiveRoles(bindings) <==> ActiveUnderAnother(before, b.bindingId, other)
      {
        ReplacedRoles(before, b, other);
      }
    }
  }

  predicate IsLastWithId(roles: seq<RoleBinding>, i: nat)
    requires i < |roles|
  {
    forall j :: i < j < |roles| ==> roles[j].bindingId != roles[i].bindingId
  }

  /** A dictionary built from a list holds under each id of the list its last record, and nothing else. */
  lemma {:induction false} PutAllHoldsLast(roles: seq<RoleBinding>, i: nat)
    requires i < |roles| && IsLastWithId(roles, i)
    ensures roles[i].bindingId in PutAll(roles).at && PutAll(roles).at[roles[i].bindingId] == roles[i]
  {
    var init := roles[..|roles| - 1];
    if i < |init| {
      assert init[i] == roles[i] && forall j :: i < j < |init| ==> init[j] == roles[j];
      PutAllHoldsLast(init, i);
    }
  }

  lemma {:induction false} PutAllHoldsOnly(roles: seq<RoleBinding>, id: string) returns (i: nat)
    requires id in PutAll(roles).at
    ensures i < |roles| && roles[i].bindingId == id && IsLastWithId(roles, i)
  {
    var last := |roles| - 1;
    if roles[last].bindingId == id {
      i := last;
    } else {
      i := PutAllHoldsOnly(roles[..last], id);
      assert forall j :: i < j < last ==> roles[..last][j] == roles[j];
    }
  }

  function PutAll(roles: seq<RoleBinding>): RoleBindings {
    if roles == [] then Empty()
    else Put(PutAll(roles[..|roles| - 1]), roles[|roles| - 1].bindingId, roles[|roles| - 1])
  }
}
