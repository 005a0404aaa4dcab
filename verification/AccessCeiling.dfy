/** Most-specific-wins capability resolution, policy ceilings, and their minimum. */
module AccessCeiling {
  import opened Wrappers
  import opened Sequences
  import opened GatewaySchemas

  datatype Capability = NoAccess | Describe | Plan | ProposeChange | ApplyLimited | ApplyFull | Admin {
    function Rank(): nat {
      match this
      case NoAccess => 0
      case Describe => 1
      case Plan => 2
      case ProposeChange => 3
      case ApplyLimited => 4
      case ApplyFull => 5
      case Admin => 6
    }

    predicate AtMost(other: Capability) {
      Rank() <= other.Rank()
    }
  }

  lemma CapabilitiesInOrder()
    ensures NoAccess.Rank() < Describe.Rank() < Plan.Rank() < ProposeChange.Rank()
            < ApplyLimited.Rank() < ApplyFull.Rank() < Admin.Rank()
  {
  }

  datatype Grant = Grant(scope: Scope, provider: string, capability: Capability)
  datatype CeilingEntry = CeilingEntry(scope: Scope, intent: Intent, ceiling: Capability)

  predicate IsExact(field: Option<string>) {
    field.Some? && field.value != "*"
  }

  function Specificity(s: Scope): nat {
    (if IsExact(s.project) then 1 else 0) + (if IsExact(s.workspace) then 1 else 0)
  }

  predicate ScopeMatches(entry: Scope, query: Scope) {
    && entry.org == query.org && entry.bu == query.bu
    && (IsExact(entry.project) ==> entry.project == query.project)
    && (IsExact(entry.workspace) ==> entry.workspace == query.workspace)
  }

  /** None and "*" leave a field open; a field left open matches anything and makes the entry less specific. */
  lemma FieldMeaning(entry: Scope, query: Scope)
    ensures ScopeMatches(entry, query) <==>
            && (entry.org, entry.bu) == (query.org, query.bu)
            && entry.project in {None, Some("*"), query.project}
            && entry.workspace in {None, Some("*"), query.workspace}
    ensures Specificity(entry) == 0 <==> entry.project in {None, Some("*")} && entry.workspace in {None, Some("*")}
    ensures Specificity(entry) == 2 <==> entry.project !in {None, Some("*")} && entry.workspace !in {None, Some("*")}
    ensures Specificity(entry) <= 2
  {
    assert entry.project.Some? ==> (entry.project == Some("*") <==> entry.project.value == "*");
    assert entry.workspace.Some? ==> (entry.workspace == Some("*") <==> entry.workspace.value == "*");
  }

  // ---------- Execution grants ----------

  function Matching(grants: seq<Grant>, scope: Scope): seq<Grant> {
    Select(grants, set g | g in grants && ScopeMatches(g.scope, scope))
  }

  function TopSpecificity(scopes: seq<Scope>): (top: nat)
    requires scopes != []
    ensures exists i :: 0 <= i < |scopes| && Specificity(scopes[i]) == top
    ensures forall i :: 0 <= i < |scopes| ==> Specificity(scopes[i]) <= top
  {
    var last := Specificity(scopes[|scopes| - 1]);
    if |scopes| == 1 then last
    else
      var top := TopSpecificity(scopes[..|scopes| - 1]);
      if last > top then last else top
  }

  function GrantScopes(grants: seq<Grant>): seq<Scope> {
    seq(|grants|, i requires 0 <= i < |grants| => grants[i].scope)
  }

  function Least(grants: seq<Grant>): (c: Capability)
    requires grants != []
    ensures exists i :: 0 <= i < |grants| && grants[i].capability == c
    ensures forall i :: 0 <= i < |grants| ==> c.AtMost(grants[i].capability)
  {
    var last := grants[|grants| - 1].capability;
    if |grants| == 1 then last
    else
      var least := Least(grants[..|grants| - 1]);
      if last.Rank() < least.Rank() then last else least
  }

  function ResolveExecutionCapability(scope: Scope, grants: seq<Grant>): Capability {
    var matches := Matching(grants, scope);
    if matches == [] then NoAccess
    else
      Least(TiedGrants(matches))
  }

  /** The most specific of some matching grants. */
  function TiedGrants(matches: seq<Grant>): (tied: seq<Grant>)
    requires matches != []
    ensures tied != []
  {
    var top := TopSpecificity(GrantScopes(matches));
    var keep := set g | g in matches && Specificity(g.scope) == top;
    var tied := Select(matches, keep);
    assert tied != [] by {
      SelectMeaning(matches, keep);
      var i :| 0 <= i < |matches| && Specificity(GrantScopes(matches)[i]) == top;
      assert matches[i] in tied;
    }
    tied
  }

  /** A matching grant that no matching grant beats in specificity. */
  ghost predicate IsTopMatch(g: Grant, scope: Scope, grants: seq<Grant>) {
    && g in grants && ScopeMatches(g.scope, scope)
    && forall h :: h in grants && ScopeMatches(h.scope, scope) ==> Specificity(h.scope) <= Specificity(g.scope)
  }

  /** The answer without any procedure: the least capability of the most specific matching grants. */
  ghost predicate IsResolution(c: Capability, scope: Scope, grants: seq<Grant>) {
    if exists g :: IsTopMatch(g, scope, grants) then
      && (exists g :: IsTopMatch(g, scope, grants) && g.capability == c)
      && (forall g :: IsTopMatch(g, scope, grants) ==> c.AtMost(g.capability))
    else c == NoAccess
  }

  lemma TiedGrantsAreMostSpecific(matches: seq<Grant>)
    requires matches != []
    ensures forall g :: g in TiedGrants(matches) <==>
              g in matches && forall h :: h in matches ==> Specificity(h.scope) <= Specificity(g.scope)
  {
    var top := TopSpecificity(GrantScopes(matches));
    SelectMeaning(matches, set g | g in matches && Specificity(g.scope) == top);
    var i :| 0 <= i < |matches| && Specificity(GrantScopes(matches)[i]) == top;
    forall h | h in matches ensures Specificity(h.scope) <= top {
      var j :| 0 <= j < |matches| && matches[j] == h;
      assert GrantScopes(matches)[j] == h.scope;
    }
    assert matches[i] in matches;
  }

  lemma TopMatches(scope: Scope, grants: seq<Grant>)
    ensures var matches := Matching(grants, scope);
            if matches == [] then forall g :: g in grants ==> !ScopeMatches(g.scope, scope)
            else forall g :: g in TiedGrants(matches) <==> IsTopMatch(g, scope, grants)
  {
    var matches := Matching(grants, scope);
    SelectMeaning(grants, set g | g in grants && ScopeMatches(g.scope, scope));
    assert forall g :: g in matches <==> g in grants && ScopeMatches(g.scope, scope);
    if matches != [] {
      TiedGrantsAreMostSpecific(matches);
    }
  }

  lemma ResolvesToLeastOfMostSpecific(scope: Scope, grants: seq<Grant>)
    ensures IsResolution(ResolveExecutionCapability(scope, grants), scope, grants)
    ensures (forall g :: g in grants ==> !ScopeMatches(g.scope, scope)) <==> !exists g :: IsTopMatch(g, scope, grants)
  {
    TopMatches(scope, grants);
    var matches := Matching(grants, scope);
    if matches != [] {
      var tied := TiedGrants(matches);
      var k :| 0 <= k < |tied| && tied[k].capability == Least(tied);
      assert tied[k] in tied;
      assert IsTopMatch(tied[k], scope, grants);
    }
  }

  lemma ResolutionIsUnique(c: Capability, d: Capability, scope: Scope, grants: seq<Grant>)
    requires IsResolution(c, scope, grants) && IsResolution(d, scope, grants)
    ensures c == d
  {
    assert c.Rank() == d.Rank();
  }

  lemma SameTopMatchesSameResolution(scope: Scope, grants: seq<Grant>, others: seq<Grant>)
    requires forall g :: IsTopMatch(g, scope, grants) <==> IsTopMatch(g, scope, others)
    ensures ResolveExecutionCapability(scope, grants) == ResolveExecutionCapability(scope, others)
  {
    ResolvesToLeastOfMostSpecific(scope, grants);
    ResolvesToLeastOfMostSpecific(scope, others);
    assert IsResolution(ResolveExecutionCapability(scope, others), scope, grants);
    ResolutionIsUnique(
      ResolveExecutionCapability(scope, grants), ResolveExecutionCapability(scope, others), scope, grants);
  }

  /** Order and repetition of grants do not matter. */
  lemma GrantOrderDoesNotMatter(scope: Scope, grants: seq<Grant>, others: seq<Grant>)
    requires forall g :: g in grants <==> g in others
    ensures ResolveExecutionCapability(scope, grants) == ResolveExecutionCapability(scope, others)
  {
    SameTopMatchesSameResolution(scope, grants, others);
  }

  /** A grant that does not match, or is strictly less specific than some match, changes nothing. */
  lemma LessSpecificGrantIsIgnored(scope: Scope, grants: seq<Grant>, extra: Grant)
    requires || !ScopeMatches(extra.scope, scope)
             || exists g :: g in grants && ScopeMatches(g.scope, scope)
                            && Specificity(extra.scope) < Specificity(g.scope)
    ensures ResolveExecutionCapability(scope, grants + [extra]) == ResolveExecutionCapability(scope, grants)
  {
    forall g ensures IsTopMatch(g, scope, grants) <==> IsTopMatch(g, scope, grants + [extra]) {
      if IsTopMatch(g, scope, grants) && ScopeMatches(extra.scope, scope) {
        assert Specificity(extra.scope) < Specificity(g.scope);
      }
    }
    SameTopMatchesSameResolution(scope, grants, grants + [extra]);
  }

  /** An equally specific grant can only lower the answer; a more specific one decides it alone. */
  lemma MoreGrantsOfTopSpecificity(scope: Scope, grants: seq<Grant>, extra: Grant, top: Grant)
    requires IsTopMatch(top, scope, grants) && ScopeMatches(extra.scope, scope)
    ensures Specificity(extra.scope) == Specificity(top.scope) ==>
              ResolveExecutionCapability(scope, grants + [extra]).AtMost(ResolveExecutionCapability(scope, grants))
    ensures Specificity(extra.scope) > Specificity(top.scope) ==>
              ResolveExecutionCapability(scope, grants + [extra]) == extra.capability
  {
    var more := grants + [extra];
    ResolvesToLeastOfMostSpecific(scope, grants);
    ResolvesToLeastOfMostSpecific(scope, more);
    if Specificity(extra.scope) == Specificity(top.scope) {
      var g :| IsTopMatch(g, scope, grants) && g.capability == ResolveExecutionCapability(scope, grants);
      assert IsTopMatch(g, scope, more);
    }
    if Specificity(extra.scope) > Specificity(top.scope) {
      assert IsTopMatch(extra, scope, more);
      forall g | IsTopMatch(g, scope, more) ensures g == extra {
        assert extra in more;
      }
    }
  }

  // ---------- Policy ceilings ----------

  function EntryScopes(entries: seq<CeilingEntry>): seq<Scope> {
    seq(|entries|, i requires 0 <= i < |entries| => entries[i].scope)
  }

  datatype CeilingError = AmbiguousCeiling

  predicate EntryApplies(e: CeilingEntry, scope: Scope, intent: Intent) {
    e.intent == intent && ScopeMatches(e.scope, scope)
  }

  function MatchingEntries(scope: Scope, intent: Intent, entries: seq<CeilingEntry>): seq<CeilingEntry> {
    Select(entries, set e | e in entries && EntryApplies(e, scope, intent))
  }

  /** The most specific of some matching entries. */
  function Tied(matches: seq<CeilingEntry>): (tied: seq<CeilingEntry>)
    requires matches != []
    ensures tied != []
  {
    var top := TopSpecificity(EntryScopes(matches));
    var keep := set e | e in matches && Specificity(e.scope) == top;
    var tied := Select(matches, keep);
    assert tied != [] by {
      SelectMeaning(matches, keep);
      var i :| 0 <= i < |matches| && Specificity(EntryScopes(matches)[i]) == top;
      assert matches[i] in tied;
    }
    tied
  }

  function ResolveCeiling(scope: Scope, intent: Intent, entries: seq<CeilingEntry>): Result<Capability, CeilingError> {
    var matches := MatchingEntries(scope, intent, entries);
    if matches == [] then Ok(NoAccess)
    else
      var tied := Tied(matches);
      var ceilings := set e | e in tied :: e.ceiling;
      if |ceilings| > 1 then Err(AmbiguousCeiling) else Ok(tied[0].ceiling)
  }

  ghost predicate IsTopEntry(e: CeilingEntry, scope: Scope, intent: Intent, entries: seq<CeilingEntry>) {
    && e in entries && EntryApplies(e, scope, intent)
    && forall f :: f in entries && EntryApplies(f, scope, intent) ==> Specificity(f.scope) <= Specificity(e.scope)
  }

  lemma MoreThanOne<T>(s: set<T>)
    ensures |s| > 1 <==> exists x, y :: x in s && y in s && x != y
  {
    if s != {} {
      var x :| x in s;
      assert s == (s - {x}) + {x};
      if |s| > 1 {
        var y :| y in s - {x};
      } else {
        assert s - {x} == {};
      }
    }
  }

  lemma TiedAreMostSpecific(matches: seq<CeilingEntry>)
    requires matches != []
    ensures forall e :: e in Tied(matches) <==>
              e in matches && forall f :: f in matches ==> Specificity(f.scope) <= Specificity(e.scope)
  {
    var top := TopSpecificity(EntryScopes(matches));
    var keep := set e | e in matches && Specificity(e.scope) == top;
    SelectMeaning(matches, keep);
    var i :| 0 <= i < |matches| && Specificity(EntryScopes(matches)[i]) == top;
    assert matches[i] in Tied(matches);
    forall f | f in matches ensures Specificity(f.scope) <= top {
      var j :| 0 <= j < |matches| && matches[j] == f;
      assert EntryScopes(matches)[j] == f.scope;
    }
    assert matches[i] in matches;
  }

  lemma TopEntries(scope: Scope, intent: Intent, entries: seq<CeilingEntry>)
    ensures var matches := MatchingEntries(scope, intent, entries);
            if matches == [] then forall e :: !IsTopEntry(e, scope, intent, entries)
            else forall e :: e in Tied(matches) <==> IsTopEntry(e, scope, intent, entries)
  {
    var matches := MatchingEntries(scope, intent, entries);
    SelectMeaning(entries, set e | e in entries && EntryApplies(e, scope, intent));
    assert forall e :: e in matches <==> e in entries && EntryApplies(e, scope, intent);
    if matches != [] {
      TiedAreMostSpecific(matches);
    }
  }

  /** Raises exactly when two most specific entries disagree; otherwise it is what all of them say. */
  lemma CeilingMeaning(scope: Scope, intent: Intent, entries: seq<CeilingEntry>)
    ensures ResolveCeiling(scope, intent, entries).Err? <==>
            exists e, f ::
              IsTopEntry(e, scope, intent, entries) && IsTopEntry(f, scope, intent, entries) && e.ceiling != f.ceiling
    ensures ResolveCeiling(scope, intent, entries).Ok? ==>
              forall e :: IsTopEntry(e, scope, intent, entries) ==>
                e.ceiling == ResolveCeiling(scope, intent, entries).value
    ensures (forall e :: !IsTopEntry(e, scope, intent, entries)) ==>
              ResolveCeiling(scope, intent, entries) == Ok(NoAccess)
  {
    TopEntries(scope, intent, entries);
    var matches := MatchingEntries(scope, intent, entries);
    if matches != [] {
      var tied := Tied(matches);
      var ceilings := set e | e in tied :: e.ceiling;
      MoreThanOne(ceilings);
      assert tied[0] in tied;
      forall e | IsTopEntry(e, scope, intent, entries) ensures e.ceiling in ceilings {
        assert e in tied;
      }
      if |ceilings| > 1 {
        var c, d :| c in ceilings && d in ceilings && c != d;
        var e :| e in tied && e.ceiling == c;
        var f :| f in tied && f.ceiling == d;
        assert IsTopEntry(e, scope, intent, entries) && IsTopEntry(f, scope, intent, entries);
      }
    }
  }

  // ---------- Effective access ----------

  function EffectiveAccess(scope: Scope, intent: Intent, grants: seq<Grant>, entries: seq<CeilingEntry>)
    : Result<Capability, CeilingError>
  {
    var grant := ResolveExecutionCapability(scope, grants);
    match ResolveCeiling(scope, intent, entries)
    case Err(e) => Err(e)
    case Ok(ceiling) => Ok(if ceiling.Rank() < grant.Rank() then ceiling else grant)
  }

  /** The greatest capability that both the grants and the ceiling allow; undefined exactly with the ceiling. */
  lemma EffectiveAccessIsGreatestLowerBound(
    scope: Scope, intent: Intent, grants: seq<Grant>, entries: seq<CeilingEntry>)
    ensures var r := EffectiveAccess(scope, intent, grants, entries);
            var ceiling := ResolveCeiling(scope, intent, entries);
            && (r.Err? <==> ceiling.Err?)
            && (r.Ok? ==> forall c: Capability ::
                  c.AtMost(r.value) <==>
                  c.AtMost(ResolveExecutionCapability(scope, grants)) && c.AtMost(ceiling.value))
  {
  }

  /** Deny by default: without a matching grant, or without a ceiling, there is no access. */
  lemma NoGrantNoAccess(scope: Scope, intent: Intent, grants: seq<Grant>, entries: seq<CeilingEntry>)
    requires EffectiveAccess(scope, intent, grants, entries).Ok?
    requires || (forall g :: g in grants ==> !ScopeMatches(g.scope, scope))
             || (forall e :: e in entries ==> e.intent != intent || !ScopeMatches(e.scope, scope))
    ensures EffectiveAccess(scope, intent, grants, entries) == Ok(NoAccess)
  {
    ResolvesToLeastOfMostSpecific(scope, grants);
    CeilingMeaning(scope, intent, entries);
  }

  // ---------- Resolving a scope hint ----------

  datatype ScopeResolution = Resolved(scope: Scope) | ClarificationRequired | Unavailable

  function ResolveScope(hint: ScopeHint, knownWorkspaces: seq<Scope>, grants: seq<Grant>): ScopeResolution {
    if hint.project.None? || hint.workspace.None? then ClarificationRequired
    else
      var requested := Scope(hint.tenant.org, hint.tenant.bu, hint.project, hint.workspace);
      if requested !in knownWorkspaces || ResolveExecutionCapability(requested, grants) == NoAccess then Unavailable
      else Resolved(requested)
  }

  /**
   * A target is visible exactly when it is known and every most specific matching grant gives some capability. A hint
   * without project or workspace asks; any other target is unavailable.
   */
  lemma VisibleIff(hint: ScopeHint, known: seq<Scope>, grants: seq<Grant>, scope: Scope)
    ensures ResolveScope(hint, known, grants) == Resolved(scope) <==>
            && scope == Scope(hint.tenant.org, hint.tenant.bu, hint.project, hint.workspace)
            && hint.project.Some? && hint.workspace.Some? && scope in known
            && (exists g :: IsTopMatch(g, scope, grants))
            && (forall g :: IsTopMatch(g, scope, grants) ==> g.capability != NoAccess)
    ensures ResolveScope(hint, known, grants) == ClarificationRequired <==>
            hint.project == None || hint.workspace == None
  {
    ResolvesToLeastOfMostSpecific(scope, grants);
  }
}
