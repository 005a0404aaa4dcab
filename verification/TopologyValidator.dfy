/**
 * Deterministic validation of a reviewed provision topology: unit and edge checks, then a
 * worklist that drains units whose predecessors are all drained.
 */
module TopologyValidator {
  import opened Wrappers
  import opened Sequences
  import opened Graphs

  datatype InputValue =
    | Literal(value: string)
    | Request(field: string)
    | Workspace(field: string)
    | UnitOutput(unitId: string, outputName: string)

  datatype Input = Input(name: string, value: InputValue)

  datatype Unit = Unit(id: string, uses: string, inputs: seq<Input>)

  datatype Spec = Spec(profile: string, provider: string, units: seq<Unit>, edges: seq<Edge>)

  datatype Validated = Validated(
    spec: Spec,
    rootIds: seq<string>,
    leafIds: seq<string>,
    predecessorsByTarget: map<string, seq<string>>)

  datatype Error =
    | ProfileMismatch
    | ProviderMismatch
    | DuplicateUnit(id: string)
    | UnknownUnit(uses: string)
    | UnknownEdgeUnit
    | SelfEdge
    | DuplicateEdge
    | UnknownOutput(unitId: string, bound: string)
    | OwnOutput(unitId: string)
    | CyclicGraph

  function Ids(units: seq<Unit>): seq<string> {
    seq(|units|, i requires 0 <= i < |units| => units[i].id)
  }

  // ---------- The first failing check, in the order the validator reads the topology ----------

  function UnitsError(units: seq<Unit>, registered: set<string>): (e: Option<Error>)
    ensures e != Some(CyclicGraph)
  {
    if units == [] then None else
      var init, unit := units[..|units| - 1], units[|units| - 1];
      var earlier := UnitsError(init, registered);
      if earlier.Some? then earlier
      else if unit.id in Ids(init) then Some(DuplicateUnit(unit.id))
      else if unit.uses !in registered then Some(UnknownUnit(unit.uses))
      else None
  }

  function EdgesError(edges: seq<Edge>, ids: set<string>): (e: Option<Error>)
    ensures e != Some(CyclicGraph)
  {
    if edges == [] then None else
      var init, edge := edges[..|edges| - 1], edges[|edges| - 1];
      var earlier := EdgesError(init, ids);
      if earlier.Some? then earlier
      else if edge.source !in ids || edge.target !in ids then Some(UnknownEdgeUnit)
      else if edge.source == edge.target then Some(SelfEdge)
      else if edge in init then Some(DuplicateEdge)
      else None
  }

  function BindingsError(unitId: string, inputs: seq<Input>, ids: set<string>): (e: Option<Error>)
    ensures e != Some(CyclicGraph)
  {
    if inputs == [] then None else
      var earlier := BindingsError(unitId, inputs[..|inputs| - 1], ids);
      var value := inputs[|inputs| - 1].value;
      if earlier.Some? then earlier
      else if value.UnitOutput? && value.unitId !in ids then Some(UnknownOutput(unitId, value.unitId))
      else if value.UnitOutput? && value.unitId == unitId then Some(OwnOutput(unitId))
      else None
  }

  function InputsError(units: seq<Unit>, ids: set<string>): (e: Option<Error>)
    ensures e != Some(CyclicGraph)
  {
    if units == [] then None else
      var earlier := InputsError(units[..|units| - 1], ids);
      if earlier.Some? then earlier
      else BindingsError(units[|units| - 1].id, units[|units| - 1].inputs, ids)
  }

  /** Every check that precedes the worklist. */
  function StaticError(spec: Spec, profileId: string, provider: string, registered: set<string>): (e: Option<Error>)
    ensures e != Some(CyclicGraph)
  {
    var ids := Elems(Ids(spec.units));
    if spec.profile != profileId then Some(ProfileMismatch)
    else if spec.provider != provider then Some(ProviderMismatch)
    else if UnitsError(spec.units, registered).Some? then UnitsError(spec.units, registered)
    else if EdgesError(spec.edges, ids).Some? then EdgesError(spec.edges, ids)
    else InputsError(spec.units, ids)
  }

  /** What the checks are for, without any order of checking. */
  ghost predicate WellFormed(spec: Spec, profileId: string, provider: string, registered: set<string>) {
    var ids := Elems(Ids(spec.units));
    && spec.profile == profileId
    && spec.provider == provider
    && Distinct(Ids(spec.units))
    && (forall unit :: unit in spec.units ==> unit.uses in registered)
    && EdgesWithin(spec.edges, ids)
    && (forall e :: e in spec.edges ==> e.source != e.target)
    && Distinct(spec.edges)
    && (forall unit, input :: unit in spec.units && input in unit.inputs && input.value.UnitOutput? ==>
          input.value.unitId in ids && input.value.unitId != unit.id)
  }

  lemma {:induction false} UnitsErrorMeaning(units: seq<Unit>, registered: set<string>)
    ensures UnitsError(units, registered).None? <==>
            Distinct(Ids(units)) && forall unit :: unit in units ==> unit.uses in registered
  {
    if units != [] {
      var init, unit := units[..|units| - 1], units[|units| - 1];
      UnitsErrorMeaning(init, registered);
      assert units == init + [unit];
      assert Ids(units) == Ids(init) + [unit.id];
      DistinctAppend(Ids(init), unit.id);
    }
  }

  lemma {:induction false} EdgesErrorMeaning(edges: seq<Edge>, ids: set<string>)
    ensures EdgesError(edges, ids).None? <==>
            EdgesWithin(edges, ids) && Distinct(edges) && forall e :: e in edges ==> e.source != e.target
  {
    if edges != [] {
      var init, edge := edges[..|edges| - 1], edges[|edges| - 1];
      EdgesErrorMeaning(init, ids);
      assert edges == init + [edge];
      DistinctAppend(init, edge);
    }
  }

  lemma {:induction false} BindingsErrorMeaning(unitId: string, inputs: seq<Input>, ids: set<string>)
    ensures BindingsError(unitId, inputs, ids).None? <==>
            forall input :: input in inputs && input.value.UnitOutput? ==>
              input.value.unitId in ids && input.value.unitId != unitId
  {
    if inputs != [] {
      BindingsErrorMeaning(unitId, inputs[..|inputs| - 1], ids);
      assert inputs == inputs[..|inputs| - 1] + [inputs[|inputs| - 1]];
    }
  }

  lemma {:induction false} InputsErrorMeaning(units: seq<Unit>, ids: set<string>)
    ensures InputsError(units, ids).None? <==>
            forall unit :: unit in units ==> BindingsError(unit.id, unit.inputs, ids).None?
  {
    if units != [] {
      InputsErrorMeaning(units[..|units| - 1], ids);
      assert units == units[..|units| - 1] + [units[|units| - 1]];
    }
  }

  lemma StaticErrorMeaning(spec: Spec, profileId: string, provider: string, registered: set<string>)
    ensures StaticError(spec, profileId, provider, registered).None? <==>
            WellFormed(spec, profileId, provider, registered)
  {
    var ids := Elems(Ids(spec.units));
    UnitsErrorMeaning(spec.units, registered);
    EdgesErrorMeaning(spec.edges, ids);
    InputsErrorMeaning(spec.units, ids);
    forall unit | unit in spec.units {
      BindingsErrorMeaning(unit.id, unit.inputs, ids);
    }
  }

  // ---------- Which error is reported ----------

  /** Unit i repeats an earlier id, or else uses a unit that is not registered. */
  ghost predicate UnitFails(units: seq<Unit>, registered: set<string>, i: nat, e: Error) {
    && i < |units|
    && if units[i].id in Ids(units[..i]) then e == DuplicateUnit(units[i].id)
       else units[i].uses !in registered && e == UnknownUnit(units[i].uses)
  }

  /** Edge i has an unknown end, or else both ends equal, or else occurred before. */
  ghost predicate EdgeFails(edges: seq<Edge>, ids: set<string>, i: nat, e: Error) {
    && i < |edges|
    && if edges[i].source !in ids || edges[i].target !in ids then e == UnknownEdgeUnit
       else if edges[i].source == edges[i].target then e == SelfEdge
       else edges[i] in edges[..i] && e == DuplicateEdge
  }

  /** Input i binds an output of an unknown unit, or else of its own. */
  ghost predicate InputFails(unit: Unit, ids: set<string>, i: nat, e: Error) {
    && i < |unit.inputs| && unit.inputs[i].value.UnitOutput?
    && var bound := unit.inputs[i].value.unitId;
       if bound !in ids then e == UnknownOutput(unit.id, bound) else bound == unit.id && e == OwnOutput(unit.id)
  }

  ghost predicate UnitsPass(spec: Spec, registered: set<string>) {
    forall j, f :: 0 <= j < |spec.units| ==> !UnitFails(spec.units, registered, j, f)
  }

  ghost predicate EdgesPass(spec: Spec, ids: set<string>) {
    forall j, f :: 0 <= j < |spec.edges| ==> !EdgeFails(spec.edges, ids, j, f)
  }

  ghost predicate FirstUnit(spec: Spec, registered: set<string>, i: nat, e: Error) {
    && UnitFails(spec.units, registered, i, e)
    && forall j, f :: 0 <= j < i ==> !UnitFails(spec.units, registered, j, f)
  }

  ghost predicate FirstEdge(spec: Spec, ids: set<string>, i: nat, e: Error) {
    EdgeFails(spec.edges, ids, i, e) && forall j, f :: 0 <= j < i ==> !EdgeFails(spec.edges, ids, j, f)
  }

  ghost predicate FirstInput(units: seq<Unit>, ids: set<string>, i: nat, k: nat, e: Error) {
    && i < |units| && InputFails(units[i], ids, k, e)
    && (forall j, f :: 0 <= j < k ==> !InputFails(units[i], ids, j, f))
    && forall u, j, f :: 0 <= u < i && 0 <= j < |units[u].inputs| ==> !InputFails(units[u], ids, j, f)
  }

  lemma {:induction false} FirstUnitError(units: seq<Unit>, registered: set<string>, i: nat, e: Error)
    requires UnitFails(units, registered, i, e)
    requires forall j, f :: 0 <= j < i ==> !UnitFails(units, registered, j, f)
    ensures UnitsError(units, registered) == Some(e)
    decreases |units|
  {
    var init := units[..|units| - 1];
    forall j, f | 0 <= j < i ensures !UnitFails(init, registered, j, f) {
      assert init[..j] == units[..j];
      assert !UnitFails(units, registered, j, f);
    }
    if i < |init| {
      assert init[..i] == units[..i];
      FirstUnitError(init, registered, i, e);
    } else {
      NoUnitError(init, registered);
    }
  }

  lemma {:induction false} NoUnitError(units: seq<Unit>, registered: set<string>)
    requires forall j, f :: 0 <= j < |units| ==> !UnitFails(units, registered, j, f)
    ensures UnitsError(units, registered).None?
  {
    if units != [] {
      var last := |units| - 1;
      forall j, f | 0 <= j < last ensures !UnitFails(units[..last], registered, j, f) {
        assert units[..last][..j] == units[..j];
        assert !UnitFails(units, registered, j, f);
      }
      NoUnitError(units[..last], registered);
      assert !UnitFails(units, registered, last, DuplicateUnit(units[last].id));
      assert !UnitFails(units, registered, last, UnknownUnit(units[last].uses));
    }
  }

  lemma {:induction false} FirstEdgeError(edges: seq<Edge>, ids: set<string>, i: nat, e: Error)
    requires EdgeFails(edges, ids, i, e)
    requires forall j, f :: 0 <= j < i ==> !EdgeFails(edges, ids, j, f)
    ensures EdgesError(edges, ids) == Some(e)
    decreases |edges|
  {
    var init := edges[..|edges| - 1];
    forall j, f | 0 <= j < i ensures !EdgeFails(init, ids, j, f) {
      assert init[..j] == edges[..j];
      assert !EdgeFails(edges, ids, j, f);
    }
    if i < |init| {
      assert init[..i] == edges[..i];
      FirstEdgeError(init, ids, i, e);
    } else {
      NoEdgeError(init, ids);
    }
  }

  lemma {:induction false} NoEdgeError(edges: seq<Edge>, ids: set<string>)
    requires forall j, f :: 0 <= j < |edges| ==> !EdgeFails(edges, ids, j, f)
    ensures EdgesError(edges, ids).None?
  {
    if edges != [] {
      var last := |edges| - 1;
      forall j, f | 0 <= j < last ensures !EdgeFails(edges[..last], ids, j, f) {
        assert edges[..last][..j] == edges[..j];
        assert !EdgeFails(edges, ids, j, f);
      }
      NoEdgeError(edges[..last], ids);
      assert !EdgeFails(edges, ids, last, UnknownEdgeUnit);
      assert !EdgeFails(edges, ids, last, SelfEdge);
      assert !EdgeFails(edges, ids, last, DuplicateEdge);
    }
  }

  lemma NoInputError(unit: Unit, inputs: seq<Input>, ids: set<string>)
    requires inputs <= unit.inputs && forall j, f :: 0 <= j < |inputs| ==> !InputFails(unit, ids, j, f)
    ensures BindingsError(unit.id, inputs, ids).None?
  {
    forall input | input in inputs && input.value.UnitOutput?
      ensures input.value.unitId in ids && input.value.unitId != unit.id
    {
      var j :| 0 <= j < |inputs| && inputs[j] == input;
      assert !InputFails(unit, ids, j, UnknownOutput(unit.id, input.value.unitId));
      assert !InputFails(unit, ids, j, OwnOutput(unit.id));
    }
    BindingsErrorMeaning(unit.id, inputs, ids);
  }

  lemma {:induction false} FirstInputError(unit: Unit, inputs: seq<Input>, ids: set<string>, i: nat, e: Error)
    requires inputs <= unit.inputs && i < |inputs| && InputFails(unit, ids, i, e)
    requires forall j, f :: 0 <= j < i ==> !InputFails(unit, ids, j, f)
    ensures BindingsError(unit.id, inputs, ids) == Some(e)
    decreases |inputs|
  {
    var init := inputs[..|inputs| - 1];
    if i < |init| {
      FirstInputError(unit, init, ids, i, e);
    } else {
      NoInputError(unit, init, ids);
    }
  }

  lemma {:induction false} FirstFailingInputs(units: seq<Unit>, ids: set<string>, i: nat, k: nat, e: Error)
    requires FirstInput(units, ids, i, k, e)
    ensures InputsError(units, ids) == Some(e)
    decreases |units|
  {
    var init := units[..|units| - 1];
    if i < |init| {
      assert FirstInput(init, ids, i, k, e);
      FirstFailingInputs(init, ids, i, k, e);
    } else {
      forall unit | unit in init ensures BindingsError(unit.id, unit.inputs, ids).None? {
        var j :| 0 <= j < |init| && init[j] == unit;
        assert forall m, f :: 0 <= m < |units[j].inputs| ==> !InputFails(units[j], ids, m, f);
        NoInputError(unit, unit.inputs, ids);
      }
      InputsErrorMeaning(init, ids);
      FirstInputError(units[i], units[i].inputs, ids, k, e);
    }
  }

  /**
   * The checks come in this order: profile, provider, units, edges, and the inputs unit by unit. The first position
   * that fails the first failing check decides the error.
   */
  lemma FirstFailingCheck(
    spec: Spec, profileId: string, provider: string, registered: set<string>, i: nat, k: nat, e: Error)
    ensures var ids := Elems(Ids(spec.units));
            var reported := StaticError(spec, profileId, provider, registered);
            if spec.profile != profileId then reported == Some(ProfileMismatch)
            else if spec.provider != provider then reported == Some(ProviderMismatch)
            else
              && (FirstUnit(spec, registered, i, e) ==> reported == Some(e))
              && (UnitsPass(spec, registered) && FirstEdge(spec, ids, i, e) ==> reported == Some(e))
              && (UnitsPass(spec, registered) && EdgesPass(spec, ids) && FirstInput(spec.units, ids, i, k, e) ==>
                    reported == Some(e))
  {
    var ids := Elems(Ids(spec.units));
    if FirstUnit(spec, registered, i, e) {
      FirstUnitError(spec.units, registered, i, e);
    }
    if UnitsPass(spec, registered) {
      NoUnitError(spec.units, registered);
      if FirstEdge(spec, ids, i, e) {
        FirstEdgeError(spec.edges, ids, i, e);
      }
      if EdgesPass(spec, ids) && FirstInput(spec.units, ids, i, k, e) {
        NoEdgeError(spec.edges, ids);
        FirstFailingInputs(spec.units, ids, i, k, e);
      }
    }
  }

  // A failing prefix decides the whole check.

  lemma {:induction false} UnitsErrorPrefix(units: seq<Unit>, registered: set<string>, k: nat)
    requires k <= |units| && UnitsError(units[..k], registered).Some?
    ensures UnitsError(units, registered) == UnitsError(units[..k], registered)
    decreases |units|
  {
    if k < |units| {
      assert units[..|units| - 1][..k] == units[..k];
      UnitsErrorPrefix(units[..|units| - 1], registered, k);
    } else {
      assert units[..k] == units;
    }
  }

  lemma {:induction false} EdgesErrorPrefix(edges: seq<Edge>, ids: set<string>, k: nat)
    requires k <= |edges| && EdgesError(edges[..k], ids).Some?
    ensures EdgesError(edges, ids) == EdgesError(edges[..k], ids)
    decreases |edges|
  {
    if k < |edges| {
      assert edges[..|edges| - 1][..k] == edges[..k];
      EdgesErrorPrefix(edges[..|edges| - 1], ids, k);
    } else {
      assert edges[..k] == edges;
    }
  }

  lemma {:induction false} BindingsErrorPrefix(unitId: string, inputs: seq<Input>, ids: set<string>, k: nat)
    requires k <= |inputs| && BindingsError(unitId, inputs[..k], ids).Some?
    ensures BindingsError(unitId, inputs, ids) == BindingsError(unitId, inputs[..k], ids)
    decreases |inputs|
  {
    if k < |inputs| {
      assert inputs[..|inputs| - 1][..k] == inputs[..k];
      BindingsErrorPrefix(unitId, inputs[..|inputs| - 1], ids, k);
    } else {
      assert inputs[..k] == inputs;
    }
  }

  lemma {:induction false} InputsErrorPrefix(units: seq<Unit>, ids: set<string>, k: nat)
    requires k <= |units| && InputsError(units[..k], ids).Some?
    ensures InputsError(units, ids) == InputsError(units[..k], ids)
    decreases |units|
  {
    if k < |units| {
      assert units[..|units| - 1][..k] == units[..k];
      InputsErrorPrefix(units[..|units| - 1], ids, k);
    } else {
      assert units[..k] == units;
    }
  }

  // ---------- Edge maps ----------

  /** Sources of the edges into u, in edge order. */
  function SourcesOf(edges: seq<Edge>, u: string): seq<string> {
    if edges == [] then [] else
      var edge := edges[|edges| - 1];
      SourcesOf(edges[..|edges| - 1], u) + (if edge.target == u then [edge.source] else [])
  }

  /** Targets of the edges out of u, in edge order. */
  function TargetsOf(edges: seq<Edge>, u: string): seq<string> {
    if edges == [] then [] else
      var edge := edges[|edges| - 1];
      TargetsOf(edges[..|edges| - 1], u) + (if edge.source == u then [edge.target] else [])
  }

  lemma {:induction false} SourcesMirrorEdges(edges: seq<Edge>, u: string)
    ensures forall p :: p in SourcesOf(edges, u) <==> Edge(p, u) in edges
    ensures Distinct(edges) ==> Distinct(SourcesOf(edges, u))
  {
    if edges != [] {
      var init, edge := edges[..|edges| - 1], edges[|edges| - 1];
      SourcesMirrorEdges(init, u);
      assert edges == init + [edge];
    }
  }

  lemma {:induction false} TargetsMirrorEdges(edges: seq<Edge>, u: string)
    ensures forall t :: t in TargetsOf(edges, u) <==> Edge(u, t) in edges
    ensures Distinct(edges) ==> Distinct(TargetsOf(edges, u))
  {
    if edges != [] {
      var init, edge := edges[..|edges| - 1], edges[|edges| - 1];
      TargetsMirrorEdges(init, u);
      assert edges == init + [edge];
    }
  }

  /** Reading a default dictionary: a missing key reads as an empty list. */
  function Get(m: map<string, seq<string>>, key: string): seq<string> {
    if key in m then m[key] else []
  }

  function Append(m: map<string, seq<string>>, key: string, x: string): map<string, seq<string>> {
    m[key := Get(m, key) + [x]]
  }

  ghost predicate MirrorsSources(preds: map<string, seq<string>>, edges: seq<Edge>) {
    forall u :: Get(preds, u) == SourcesOf(edges, u)
  }

  ghost predicate MirrorsTargets(succs: map<string, seq<string>>, edges: seq<Edge>) {
    forall u :: Get(succs, u) == TargetsOf(edges, u)
  }

  lemma MirrorStep(preds: map<string, seq<string>>, succs: map<string, seq<string>>, edges: seq<Edge>, edge: Edge)
    requires MirrorsSources(preds, edges) && MirrorsTargets(succs, edges)
    ensures MirrorsSources(Append(preds, edge.target, edge.source), edges + [edge])
    ensures MirrorsTargets(Append(succs, edge.source, edge.target), edges + [edge])
  {
    assert (edges + [edge])[..|edges|] == edges;
    forall u ensures Get(Append(preds, edge.target, edge.source), u) == SourcesOf(edges + [edge], u) {
      assert Get(preds, u) == SourcesOf(edges, u);
    }
    forall u ensures Get(Append(succs, edge.source, edge.target), u) == TargetsOf(edges + [edge], u) {
      assert Get(succs, u) == TargetsOf(edges, u);
    }
  }

  method CheckUnits(units: seq<Unit>, registered: set<string>) returns (r: Result<seq<string>, Error>)
    ensures r == (match UnitsError(units, registered)
                  case Some(e) => Err(e)
                  case None => Ok(Ids(units)))
  {
    var ids: seq<string> := [];
    for k := 0 to |units|
      invariant ids == Ids(units[..k])
      invariant UnitsError(units[..k], registered).None?
    {
      var unit := units[k];
      assert units[..k + 1][..k] == units[..k];
      if unit.id in ids {
        UnitsErrorPrefix(units, registered, k + 1);
        return Err(DuplicateUnit(unit.id));
      }
      if unit.uses !in registered {
        UnitsErrorPrefix(units, registered, k + 1);
        return Err(UnknownUnit(unit.uses));
      }
      ids := ids + [unit.id];
    }
    assert units[..|units|] == units;
    return Ok(ids);
  }

  method BuildEdgeMaps(edges: seq<Edge>, ids: set<string>)
    returns (r: Result<(map<string, seq<string>>, map<string, seq<string>>), Error>)
    ensures r.Err? ==> EdgesError(edges, ids) == Some(r.error)
    ensures r.Ok? ==> EdgesError(edges, ids).None? && r.value.0.Keys + r.value.1.Keys <= ids
    ensures r.Ok? ==> MirrorsSources(r.value.0, edges) && MirrorsTargets(r.value.1, edges)
  {
    var preds, succs := map[], map[];
    for k := 0 to |edges|
      invariant preds.Keys + succs.Keys <= ids
      invariant MirrorsSources(preds, edges[..k]) && MirrorsTargets(succs, edges[..k])
      invariant EdgesError(edges[..k], ids).None?
    {
      var edge := edges[k];
      assert edges[..k + 1] == edges[..k] + [edge];
      if edge.source !in ids || edge.target !in ids {
        EdgesErrorPrefix(edges, ids, k + 1);
        return Err(UnknownEdgeUnit);
      }
      if edge.source == edge.target {
        EdgesErrorPrefix(edges, ids, k + 1);
        return Err(SelfEdge);
      }
      MirrorStep(preds, succs, edges[..k], edge);
      SourcesMirrorEdges(edges[..k], edge.target);
      assert Get(preds, edge.target) == SourcesOf(edges[..k], edge.target);
      if edge.source in Get(preds, edge.target) {
        EdgesErrorPrefix(edges, ids, k + 1);
        return Err(DuplicateEdge);
      }
      preds := Append(preds, edge.target, edge.source);
      succs := Append(succs, edge.source, edge.target);
    }
    assert edges[..|edges|] == edges;
    return Ok((preds, succs));
  }

  method CheckInputs(units: seq<Unit>, ids: set<string>) returns (r: Option<Error>)
    ensures r == InputsError(units, ids)
  {
    for k := 0 to |units|
      invariant InputsError(units[..k], ids).None?
    {
      var unit := units[k];
      assert units[..k + 1][..k] == units[..k];
      for i := 0 to |unit.inputs|
        invariant BindingsError(unit.id, unit.inputs[..i], ids).None?
      {
        var value := unit.inputs[i].value;
        assert unit.inputs[..i + 1][..i] == unit.inputs[..i];
        if value.UnitOutput? && value.unitId !in ids {
          BindingsErrorPrefix(unit.id, unit.inputs, ids, i + 1);
          InputsErrorPrefix(units, ids, k + 1);
          return Some(UnknownOutput(unit.id, value.unitId));
        }
        if value.UnitOutput? && value.unitId == unit.id {
          BindingsErrorPrefix(unit.id, unit.inputs, ids, i + 1);
          InputsErrorPrefix(units, ids, k + 1);
          return Some(OwnOutput(unit.id));
        }
      }
      assert unit.inputs[..|unit.inputs|] == unit.inputs;
    }
    assert units[..|units|] == units;
    return None;
  }

  // ---------- The worklist ----------

  /** How many predecessors of u are not drained yet. */
  ghost function Undrained(edges: seq<Edge>, u: string, drained: set<string>): nat {
    |Elems(SourcesOf(edges, u)) - drained|
  }

  function WithDegreeZero(indegree: map<string, int>): set<string> {
    set u | u in indegree && indegree[u] == 0
  }

  /** The queue holds exactly the undrained units whose count reached zero, each once. */
  ghost predicate WorklistInv(
    ids: set<string>, ordered: seq<string>, queue: seq<string>, indegree: map<string, int>)
  {
    && indegree.Keys == ids
    && Distinct(ordered + queue)
    && (forall u :: u in ids ==> (indegree[u] == 0 <==> u in ordered + queue))
    && (forall u :: u in ordered + queue ==> u in ids)
  }

  /** Lowers the count of each successor and enqueues those that reach zero. */
  method Release(
    targets: seq<string>, indegree0: map<string, int>, queue0: seq<string>,
    ghost ids: set<string>, ghost ordered: seq<string>)
    returns (indegree: map<string, int>, queue: seq<string>)
    requires WorklistInv(ids, ordered, queue0, indegree0)
    requires Distinct(targets) && Inside(targets, ids)
    requires forall u :: u in targets ==> indegree0[u] > 0
    ensures WorklistInv(ids, ordered, queue, indegree)
    ensures forall u :: u in ids ==> indegree[u] == indegree0[u] - (if u in targets then 1 else 0)
  {
    indegree, queue := indegree0, queue0;
    for k := 0 to |targets|
      invariant WorklistInv(ids, ordered, queue, indegree)
      invariant forall u :: u in ids ==> indegree[u] == indegree0[u] - (if u in targets[..k] then 1 else 0)
    {
      var v := targets[k];
      assert targets[..k + 1] == targets[..k] + [v];
      assert v !in targets[..k];
      DistinctAppend(ordered + queue, v);
      assert ordered + (queue + [v]) == (ordered + queue) + [v];
      indegree := indegree[v := indegree[v] - 1];
      if indegree[v] == 0 {
        queue := queue + [v];
      }
    }
    assert targets[..|targets|] == targets;
  }

  lemma OneLess(edges: seq<Edge>, u: string, drained: set<string>, x: string)
    requires x !in drained
    ensures Undrained(edges, u, drained + {x}) ==
            Undrained(edges, u, drained) - (if x in SourcesOf(edges, u) then 1 else 0)
  {
    var waiting := Elems(SourcesOf(edges, u)) - drained;
    assert Elems(SourcesOf(edges, u)) - (drained + {x}) == waiting - {x};
  }

  ghost predicate CountsRight(ids: set<string>, edges: seq<Edge>, drained: set<string>, indegree: map<string, int>) {
    && indegree.Keys == ids
    && forall u {:trigger Undrained(edges, u, drained)} :: u in ids ==> indegree[u] == Undrained(edges, u, drained)
  }

  /** Counts are right for the drained units, and a drained unit's predecessors were drained before it. */
  ghost predicate DrainInv(
    ids: set<string>, edges: seq<Edge>, ordered: seq<string>, queue: seq<string>, indegree: map<string, int>)
  {
    && WorklistInv(ids, ordered, queue, indegree)
    && CountsRight(ids, edges, Elems(ordered), indegree)
    && SourcesFirst(ordered, edges)
  }

  lemma ReadyMeansPredecessorsDrained(edges: seq<Edge>, ordered: seq<string>, x: string)
    requires SourcesFirst(ordered, edges) && Undrained(edges, x, Elems(ordered)) == 0
    ensures SourcesFirst(ordered + [x], edges)
  {
    SourcesMirrorEdges(edges, x);
    var next := ordered + [x];
    forall j | 0 <= j < |next| ensures FollowsItsSources(next, edges, j) {
      if j == |ordered| {
        var sources := Elems(SourcesOf(edges, x));
        assert sources <= Elems(ordered) + (sources - Elems(ordered));
        assert sources - Elems(ordered) == {};
        assert next[..j] == ordered;
        forall p | Edge(p, x) in edges ensures p in ordered {
          assert p in sources;
        }
      } else {
        assert FollowsItsSources(ordered, edges, j);
        assert next[..j] == ordered[..j];
      }
    }
  }

  /** One turn of the loop leaves the counts right: x is drained and its successors wait for one unit less. */
  lemma DrainStep(
    ids: set<string>, edges: seq<Edge>, ordered: seq<string>, x: string,
    indegree0: map<string, int>, indegree: map<string, int>)
    requires CountsRight(ids, edges, Elems(ordered), indegree0) && x !in ordered && indegree.Keys == ids
    requires forall u :: u in ids ==> indegree[u] == indegree0[u] - (if u in TargetsOf(edges, x) then 1 else 0)
    ensures CountsRight(ids, edges, Elems(ordered + [x]), indegree)
  {
    assert Elems(ordered + [x]) == Elems(ordered) + {x};
    TargetsMirrorEdges(edges, x);
    forall u | u in ids ensures indegree[u] == Undrained(edges, u, Elems(ordered + [x])) {
      SourcesMirrorEdges(edges, u);
      OneLess(edges, u, Elems(ordered), x);
    }
  }

  lemma WaitingSuccessors(edges: seq<Edge>, drained: set<string>, x: string, u: string)
    requires u in TargetsOf(edges, x) && x !in drained
    ensures Undrained(edges, u, drained) > 0
  {
    TargetsMirrorEdges(edges, x);
    SourcesMirrorEdges(edges, u);
    assert x in Elems(SourcesOf(edges, u)) - drained;
  }

  /** The head of the queue moves to the end of the drained units. */
  lemma Dequeue(ids: set<string>, ordered: seq<string>, queue: seq<string>, indegree: map<string, int>)
    requires WorklistInv(ids, ordered, queue, indegree) && queue != []
    ensures queue[0] in ids && queue[0] !in ordered && indegree[queue[0]] == 0
    ensures WorklistInv(ids, ordered + [queue[0]], queue[1..], indegree)
  {
    var all := ordered + queue;
    assert all == (ordered + [queue[0]]) + queue[1..];
    assert all[|ordered|] == queue[0];
    forall i | 0 <= i < |ordered| ensures ordered[i] != queue[0] {
      assert all[i] == ordered[i];
    }
  }

  /** The successors of an undrained unit are distinct units that still wait for it. */
  lemma SuccessorsWait(ids: set<string>, edges: seq<Edge>, ordered: seq<string>, indegree: map<string, int>, x: string)
    requires EdgesWithin(edges, ids) && Distinct(edges) && x !in ordered
    requires CountsRight(ids, edges, Elems(ordered), indegree)
    ensures Distinct(TargetsOf(edges, x)) && Inside(TargetsOf(edges, x), ids)
    ensures forall u :: u in TargetsOf(edges, x) ==> indegree[u] > 0
  {
    TargetsMirrorEdges(edges, x);
    forall u | u in TargetsOf(edges, x) ensures u in ids && indegree[u] > 0 {
      assert Edge(x, u) in edges;
      WaitingSuccessors(edges, Elems(ordered), x, u);
    }
  }

  /** The degree table before anything is drained. */
  lemma InitialDrainInv(ids: seq<string>, edges: seq<Edge>, indegree: map<string, int>)
    requires Distinct(ids) && Distinct(edges) && indegree.Keys == Elems(ids)
    requires forall u :: u in ids ==> indegree[u] == |SourcesOf(edges, u)|
    ensures DrainInv(Elems(ids), edges, [], Select(ids, WithDegreeZero(indegree)), indegree)
  {
    forall u | u in ids ensures indegree[u] == Undrained(edges, u, Elems([])) {
      SourcesMirrorEdges(edges, u);
      DistinctSize(SourcesOf(edges, u));
      assert Elems(SourcesOf(edges, u)) - Elems([]) == Elems(SourcesOf(edges, u));
    }
    var queue := Select(ids, WithDegreeZero(indegree));
    SelectMeaning(ids, WithDegreeZero(indegree));
    assert [] + queue == queue;
  }

  /** Units left with a positive count each wait for another unit that is left. */
  lemma RemainderIsStuck(
    ids: set<string>, edges: seq<Edge>, ordered: seq<string>, indegree: map<string, int>)
    requires EdgesWithin(edges, ids) && DrainInv(ids, edges, ordered, [], indegree)
    ensures NobodyFirst(edges, ids - Elems(ordered))
  {
    var left := ids - Elems(ordered);
    forall u | u in left ensures HasPredecessorIn(edges, left, u) {
      assert ordered + [] == ordered;
      assert indegree[u] == Undrained(edges, u, Elems(ordered));
      var waiting := Elems(SourcesOf(edges, u)) - Elems(ordered);
      assert |waiting| > 0;
      var p :| p in waiting;
      SourcesMirrorEdges(edges, u);
      assert Edge(p, u) in edges;
    }
  }

  lemma DrainedFits(ids: set<string>, ordered: seq<string>)
    requires Distinct(ordered) && Inside(ordered, ids)
    ensures |ordered| <= |ids|
    ensures |ordered| == |ids| <==> Elems(ordered) == ids
  {
    DistinctSize(ordered);
    SubsetSize(Elems(ordered), ids);
  }

  lemma DrainedAreUnits(ids: set<string>, ordered: seq<string>, queue: seq<string>, indegree: map<string, int>)
    requires WorklistInv(ids, ordered, queue, indegree)
    ensures Distinct(ordered) && Inside(ordered, ids) && |ordered| <= |ids|
  {
    forall i | 0 <= i < |ordered| ensures (ordered + queue)[i] == ordered[i] {}
    DrainedFits(ids, ordered);
  }

  /** The worklist loop: it empties the queue, and each unit enters the queue at most once. */
  method DrainQueue(
    successors: map<string, seq<string>>, indegree0: map<string, int>, queue0: seq<string>,
    ghost ids: set<string>, ghost edges: seq<Edge>)
    returns (ordered: seq<string>, indegree: map<string, int>)
    requires Distinct(edges) && EdgesWithin(edges, ids)
    requires successors.Keys == ids && forall u :: u in ids ==> successors[u] == TargetsOf(edges, u)
    requires DrainInv(ids, edges, [], queue0, indegree0)
    ensures DrainInv(ids, edges, ordered, [], indegree)
  {
    var queue := queue0;
    indegree := indegree0;
    ordered := [];
    DrainedAreUnits(ids, ordered, queue, indegree);
    while queue != []
      invariant DrainInv(ids, edges, ordered, queue, indegree)
      invariant |ordered| <= |ids|
      decreases |ids| - |ordered|
    {
      var x := queue[0];
      Dequeue(ids, ordered, queue, indegree);
      assert indegree[x] == Undrained(edges, x, Elems(ordered));
      ReadyMeansPredecessorsDrained(edges, ordered, x);
      SuccessorsWait(ids, edges, ordered, indegree, x);
      ghost var before, waiting := ordered, indegree;
      ordered := ordered + [x];
      DrainedAreUnits(ids, ordered, queue[1..], indegree);
      indegree, queue := Release(successors[x], indegree, queue[1..], ids, ordered);
      DrainStep(ids, edges, before, x, waiting, indegree);
    }
  }

  /** With the queue empty, either everything is drained or the rest contains a cycle. */
  lemma DrainOutcome(ids: seq<string>, edges: seq<Edge>, ordered: seq<string>, indegree: map<string, int>)
    requires Distinct(ids) && EdgesWithin(edges, Elems(ids))
    requires DrainInv(Elems(ids), edges, ordered, [], indegree)
    ensures Distinct(ordered) && Inside(ordered, Elems(ids)) && SourcesFirst(ordered, edges)
    ensures |ordered| == |ids| ==> IsTopologicalOrder(ordered, Elems(ids), edges)
    ensures |ordered| != |ids| ==> exists cycle :: IsCycle(edges, cycle) && Inside(cycle, Elems(ids) - Elems(ordered))
  {
    var units := Elems(ids);
    DistinctSize(ids);
    DrainedAreUnits(units, ordered, [], indegree);
    DrainedFits(units, ordered);
    if |ordered| != |ids| {
      RemainderIsStuck(units, edges, ordered, indegree);
      assert Elems(ordered) <= units <= Elems(ordered) + (units - Elems(ordered));
      var cycle := StuckImpliesCycle(edges, units - Elems(ordered));
    }
  }

  /** Drains the units. Either all of them come out in a topological order, or the rest contains a cycle. */
  method Drain(
    ids: seq<string>, predecessors: map<string, seq<string>>, successors: map<string, seq<string>>,
    ghost edges: seq<Edge>)
    returns (ordered: seq<string>)
    requires Distinct(ids) && Distinct(edges) && EdgesWithin(edges, Elems(ids))
    requires predecessors.Keys == Elems(ids) && forall u :: u in ids ==> predecessors[u] == SourcesOf(edges, u)
    requires successors.Keys == Elems(ids) && forall u :: u in ids ==> successors[u] == TargetsOf(edges, u)
    ensures Distinct(ordered) && Inside(ordered, Elems(ids)) && SourcesFirst(ordered, edges)
    ensures |ordered| == |ids| ==> IsTopologicalOrder(ordered, Elems(ids), edges)
    ensures |ordered| != |ids| ==> exists cycle :: IsCycle(edges, cycle) && Inside(cycle, Elems(ids) - Elems(ordered))
  {
    ghost var units := Elems(ids);
    var indegree: map<string, int> := map u | u in ids :: |predecessors[u]|;
    InitialDrainInv(ids, edges, indegree);
    var queue := Select(ids, WithDegreeZero(indegree));
    ordered, indegree := DrainQueue(successors, indegree, queue, units, edges);
    DrainOutcome(ids, edges, ordered, indegree);
  }

  // ---------- The validator ----------

  function WithNone(m: map<string, seq<string>>): set<string> {
    set u | u in m && m[u] == []
  }

  /** What an accepted topology reports: its roots and leaves in declaration order, and all its edges. */
  ghost predicate Summarizes(v: Validated, spec: Spec) {
    var ids := Ids(spec.units);
    && v.spec == spec
    && v.rootIds == Select(ids, set u | u in ids && IsRoot(spec.edges, u))
    && v.leafIds == Select(ids, set u | u in ids && IsLeaf(spec.edges, u))
    && v.predecessorsByTarget.Keys == Elems(ids)
    && (forall u :: u in ids ==> v.predecessorsByTarget[u] == SourcesOf(spec.edges, u))
  }

  method ValidateTopology(spec: Spec, profileId: string, provider: string, registered: set<string>)
    returns (r: Result<Validated, Error>, ghost ordered: seq<string>)
    ensures StaticError(spec, profileId, provider, registered).Some? ==>
              r == Err(StaticError(spec, profileId, provider, registered).value)
    ensures r.Ok? <==> WellFormed(spec, profileId, provider, registered) && Acyclic(spec.edges)
    ensures r == Err(CyclicGraph) <==> WellFormed(spec, profileId, provider, registered) && !Acyclic(spec.edges)
    ensures r.Ok? ==> Summarizes(r.value, spec)
    ensures r.Ok? ==> IsTopologicalOrder(ordered, Elems(Ids(spec.units)), spec.edges)
  {
    ordered := [];
    StaticErrorMeaning(spec, profileId, provider, registered);
    if spec.profile != profileId {
      return Err(ProfileMismatch), ordered;
    }
    if spec.provider != provider {
      return Err(ProviderMismatch), ordered;
    }
    var checked := CheckUnits(spec.units, registered);
    if checked.Err? {
      return Err(checked.error), ordered;
    }
    var ids := checked.value;
    var byId := Elems(ids);
    var maps := BuildEdgeMaps(spec.edges, byId);
    if maps.Err? {
      return Err(maps.error), ordered;
    }
    var inputs := CheckInputs(spec.units, byId);
    if inputs.Some? {
      return Err(inputs.value), ordered;
    }
    var preds := map u | u in byId :: Get(maps.value.0, u);
    var succs := map u | u in byId :: Get(maps.value.1, u);
    var drained := Drain(ids, preds, succs, spec.edges);
    ordered := drained;
    if |drained| != |ids| {
      return Err(CyclicGraph), ordered;
    }
    OrderedImpliesAcyclic(ordered, byId, spec.edges);
    var v := Validated(spec, Select(ids, WithNone(preds)), Select(ids, WithNone(succs)), preds);
    SummaryIsRight(spec, preds, succs, v);
    return Ok(v), ordered;
  }

  lemma SummaryIsRight(
    spec: Spec, preds: map<string, seq<string>>, succs: map<string, seq<string>>, v: Validated)
    requires preds.Keys == succs.Keys == Elems(Ids(spec.units))
    requires forall u :: u in preds ==> preds[u] == SourcesOf(spec.edges, u)
    requires forall u :: u in succs ==> succs[u] == TargetsOf(spec.edges, u)
    requires v.spec == spec && v.predecessorsByTarget == preds
    requires v.rootIds == Select(Ids(spec.units), WithNone(preds))
    requires v.leafIds == Select(Ids(spec.units), WithNone(succs))
    ensures Summarizes(v, spec)
  {
    var ids := Ids(spec.units);
    forall u | u in ids
      ensures preds[u] == [] <==> IsRoot(spec.edges, u)
      ensures succs[u] == [] <==> IsLeaf(spec.edges, u)
    {
      SourcesMirrorEdges(spec.edges, u);
      TargetsMirrorEdges(spec.edges, u);
      if preds[u] != [] {
        assert preds[u][0] in preds[u];
      }
      if succs[u] != [] {
        assert succs[u][0] in succs[u];
      }
    }
    assert WithNone(preds) == set u | u in ids && IsRoot(spec.edges, u);
    assert WithNone(succs) == set u | u in ids && IsLeaf(spec.edges, u);
  }

  // ---------- What acceptance means for the units ----------

  ghost predicate ReachableFrom(edges: seq<Edge>, from: string, to: string) {
    exists w :: IsWalk(edges, w) && w[0] == from && w[|w| - 1] == to
  }

  /** Every unit of an accepted topology is reachable from a reported root and reaches a reported leaf. */
  lemma EveryUnitIsConnected(spec: Spec, v: Validated, ordered: seq<string>, u: string)
    requires EdgesWithin(spec.edges, Elems(Ids(spec.units))) && Summarizes(v, spec)
    requires IsTopologicalOrder(ordered, Elems(Ids(spec.units)), spec.edges)
    requires u in Ids(spec.units)
    ensures exists root :: root in v.rootIds && ReachableFrom(spec.edges, root, u)
    ensures exists leaf :: leaf in v.leafIds && ReachableFrom(spec.edges, u, leaf)
  {
    assert u in Elems(ordered);
    var j :| 0 <= j < |ordered| && ordered[j] == u;
    SelectMeaning(Ids(spec.units), set r | r in Ids(spec.units) && IsRoot(spec.edges, r));
    SelectMeaning(Ids(spec.units), set l | l in Ids(spec.units) && IsLeaf(spec.edges, l));
    var w := ReachedFromRoot(ordered, spec.edges, j);
    assert w[0] in v.rootIds && ReachableFrom(spec.edges, w[0], u);
    var x := ReachesLeaf(ordered, Elems(Ids(spec.units)), spec.edges, j);
    assert x[|x| - 1] in v.leafIds && ReachableFrom(spec.edges, u, x[|x| - 1]);
  }

  /** An accepted topology, which declares at least one unit, has a root and a leaf. */
  lemma RootsAndLeavesExist(spec: Spec, v: Validated, ordered: seq<string>)
    requires |spec.units| >= 1
    requires EdgesWithin(spec.edges, Elems(Ids(spec.units))) && Summarizes(v, spec)
    requires IsTopologicalOrder(ordered, Elems(Ids(spec.units)), spec.edges)
    ensures v.rootIds != [] && v.leafIds != []
  {
    EveryUnitIsConnected(spec, v, ordered, Ids(spec.units)[0]);
  }
}
