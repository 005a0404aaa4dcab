/** Reviewed bindings from a Resource Scope to a cloud container, and the resolver that picks exactly one. */
module ProviderBindings {
  import opened Wrappers
  import opened Sequences
  import opened OrderedDicts
  import opened ResourceScopes

  datatype CloudProvider = Aws | Gcp | Azure {
    function Name(): string {
      match this
      case Aws => "aws"
      case Gcp => "gcp"
      case Azure => "azure"
    }
  }

  datatype ContainerType = AwsAccount | GcpProject | AzureSubscription

  datatype CloudBinding = CloudBinding(
    bindingId: string,
    scopeId: string,
    provider: CloudProvider,
    containerType: ContainerType,
    containerReference: string,
    executionIdentityReference: string,
    providerWorkspace: Option<string>,
    state: LifecycleState,
    version: nat)
  {
    predicate IsWellFormed() {
      && |bindingId| >= 10 && |scopeId| >= 8 && version >= 1
      && containerType == (match provider case Aws => AwsAccount case Gcp => GcpProject case Azure => AzureSubscription)
    }
  }

  type CloudBindings = Dict<string, CloudBinding>

  /** Every record is stored under its own id. */
  ghost predicate KeyedById(reg: CloudBindings) {
    forall id :: id in reg.at ==> reg.at[id].bindingId == id && reg.at[id].IsWellFormed()
  }

  function SetState(reg: CloudBindings, id: string, state: LifecycleState): Option<CloudBindings> {
    if id in reg.at then Some(Put(reg, id, reg.at[id].(state := state))) else None
  }

  predicate IsActiveFor(b: CloudBinding, scopeId: string) {
    b.scopeId == scopeId && b.state.Active?
  }

  function ActiveBindings(reg: CloudBindings, scopeId: string): seq<CloudBinding> {
    Select(Values(reg), set b | b in Values(reg) && IsActiveFor(b, scopeId))
  }

  function ResolveBinding(reg: CloudBindings, scopeId: string, eligible: set<CloudProvider>): Option<CloudBinding> {
    var active := ActiveBindings(reg, scopeId);
    var candidates := Select(active, set b | b in active && b.provider in eligible);
    if |candidates| != 1 then None else Some(candidates[0])
  }

  ghost predicate IsCandidate(b: CloudBinding, scopeId: string, eligible: set<CloudProvider>) {
    b.scopeId == scopeId && b.state == Active && b.provider in eligible
  }

  /** The one candidate of the scope, wherever it stands among the records. */
  ghost predicate IsSoleCandidate(
    reg: CloudBindings, scopeId: string, eligible: set<CloudProvider>, b: CloudBinding)
  {
    && b.bindingId in reg.at && reg.at[b.bindingId] == b && IsCandidate(b, scopeId, eligible)
    && forall id :: id in reg.at && IsCandidate(reg.at[id], scopeId, eligible) ==> id == b.bindingId
  }

  lemma ActiveBindingsMeaning(reg: CloudBindings, scopeId: string)
    requires KeyedById(reg)
    ensures forall b :: b in ActiveBindings(reg, scopeId) <==>
              b.bindingId in reg.at && reg.at[b.bindingId] == b && b.scopeId == scopeId && b.state == Active
    ensures Distinct(ActiveBindings(reg, scopeId))
  {
    SelectMeaning(Values(reg), set b | b in Values(reg) && IsActiveFor(b, scopeId));
    forall b ensures b in Values(reg) <==> b.bindingId in reg.at && reg.at[b.bindingId] == b {
      if b in Values(reg) {
        var i :| 0 <= i < |Values(reg)| && Values(reg)[i] == b;
        assert reg.keys[i] in reg.at;
      }
      if b.bindingId in reg.at && reg.at[b.bindingId] == b {
        ValuesHolds(reg, b.bindingId);
      }
    }
    forall i, j | 0 <= i < j < |Values(reg)| ensures Values(reg)[i] != Values(reg)[j] {
      assert reg.keys[i] in reg.at && reg.keys[j] in reg.at;
    }
  }

  /** The resolver answers with a binding exactly when it is the scope's only active eligible one. */
  lemma ResolvesExactlyTheOnlyCandidate(
    reg: CloudBindings, scopeId: string, eligible: set<CloudProvider>, b: CloudBinding)
    requires KeyedById(reg)
    ensures ResolveBinding(reg, scopeId, eligible) == Some(b) <==> IsSoleCandidate(reg, scopeId, eligible, b)
  {
    var active := ActiveBindings(reg, scopeId);
    var keep := set c | c in active && c.provider in eligible;
    var candidates := Select(active, keep);
    ActiveBindingsMeaning(reg, scopeId);
    SelectMeaning(active, keep);
    assert |candidates| > 1 ==> candidates[0] != candidates[1];
    if |candidates| == 1 {
      assert candidates[0] in candidates;
      forall id | id in reg.at && IsCandidate(reg.at[id], scopeId, eligible)
        ensures id == candidates[0].bindingId
      {
        assert reg.at[id].bindingId == id;
        assert reg.at[id] in candidates;
      }
    }
    if IsSoleCandidate(reg, scopeId, eligible, b) {
      assert b in candidates;
      forall i | 0 <= i < |candidates| ensures candidates[i] == b {
        assert candidates[i] in candidates;
      }
      assert |candidates| == 1;
    }
  }

  /** A changed record is active for its scope exactly in the active state; every other record stays what it was. */
  lemma SetStateMeaning(reg: CloudBindings, id: string, state: LifecycleState, scopeId: string, b: CloudBinding)
    requires KeyedById(reg) && id in reg.at
    ensures SetState(reg, id, state).Some? && KeyedById(SetState(reg, id, state).value)
    ensures b.bindingId == id ==>
              (b in ActiveBindings(SetState(reg, id, state).value, scopeId) <==>
               state == Active && b == reg.at[id].(state := Active) && b.scopeId == scopeId)
    ensures b.bindingId != id ==>
              (b in ActiveBindings(SetState(reg, id, state).value, scopeId) <==> b in ActiveBindings(reg, scopeId))
  {
    var after := SetState(reg, id, state).value;
    assert KeyedById(after);
    ActiveBindingsMeaning(reg, scopeId);
    ActiveBindingsMeaning(after, scopeId);
  }

  /** The in-memory registry: one dictionary, updated in place. */
  class InMemoryBindingRegistry {
    var bindings: CloudBindings

    constructor ()
      ensures bindings == Empty()
    {
      bindings := Empty();
    }

    method RegisterReviewed(b: CloudBinding)
      requires KeyedById(bindings) && b.IsWellFormed()
      modifies this
      ensures KeyedById(bindings)
      ensures bindings.at == old(bindings.at)[b.bindingId := b]
      ensures bindings == Put(old(bindings), b.bindingId, b)
    {
      bindings := Put(bindings, b.bindingId, b);
    }

    method ChangeState(id: string, state: LifecycleState) returns (found: bool)
      requires KeyedById(bindings)
      modifies this
      ensures KeyedById(bindings)
      ensures found <==> id in old(bindings.at)
      ensures found ==> bindings.at == old(bindings.at)[id := old(bindings.at)[id].(state := state)]
      ensures bindings == if found then SetState(old(bindings), id, state).value else old(bindings)
    {
      if id !in bindings.at {
        return false;
      }
      bindings := Put(bindings, id, bindings.at[id].(state := state));
      return true;
    }
  }
}
