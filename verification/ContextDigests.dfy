/** The text a resolved context is digested from, a reader for it, and exactly when reading gives the context back. */
module ContextDigests {
  import opened Wrappers
  import opened Sequences
  import opened Strings

  const UNIT_SEPARATOR: char := 0x1f as char
  const GRANT := "grant:"
  const GUARDRAIL := "guardrail:"

  datatype BindingVersion = BindingVersion(bindingId: string, version: nat)

  datatype Contents = Contents(
    scopeId: string,
    canonicalPath: string,
    scopeVersion: nat,
    bindingVersions: seq<BindingVersion>,
    grantIds: seq<string>,
    guardrailIds: seq<string>)
  {
    /** The field constraints of the sealed record types. */
    predicate IsWellFormed() {
      && |scopeId| >= 8 && |canonicalPath| >= 1 && scopeVersion >= 1
      && |bindingVersions| >= 1
      && (forall i :: 0 <= i < |bindingVersions| ==>
            |bindingVersions[i].bindingId| >= 10 && bindingVersions[i].version >= 1)
    }

    function BindingIds(): (ids: seq<string>)
      ensures |ids| == |bindingVersions|
    {
      seq(|bindingVersions|, i requires 0 <= i < |bindingVersions| => bindingVersions[i].bindingId)
    }

    /** A context object accepts its fields only if no binding id repeats. */
    ghost predicate IsSealable() {
      IsWellFormed() && Distinct(BindingIds())
    }
  }

  // ---------- Writing ----------

  function BindingField(b: BindingVersion): string {
    b.bindingId + ":" + Decimal(b.version)
  }

  function BindingFields(bs: seq<BindingVersion>): (fields: seq<string>)
    ensures |fields| == |bs|
  {
    if bs == [] then [] else [BindingField(bs[0])] + BindingFields(bs[1..])
  }

  function Prefixed(prefix: string, ids: seq<string>): (fields: seq<string>)
    ensures |fields| == |ids|
  {
    if ids == [] then [] else [prefix + ids[0]] + Prefixed(prefix, ids[1..])
  }

  function Fields(c: Contents): seq<string> {
    [c.scopeId, c.canonicalPath, Decimal(c.scopeVersion)]
    + (BindingFields(c.bindingVersions) + (Prefixed(GRANT, c.grantIds) + Prefixed(GUARDRAIL, c.guardrailIds)))
  }

  function Preimage(c: Contents): string {
    Join(Fields(c), UNIT_SEPARATOR)
  }

  // ---------- Reading back ----------

  datatype Lists = Lists(bindings: seq<BindingVersion>, grants: seq<string>, guardrails: seq<string>)

  function ReadBinding(field: string): Option<BindingVersion> {
    match SplitLastColon(field)
    case None => None
    case Some((id, digits)) =>
      match ParseDecimal(digits)
      case None => None
      case Some(version) => Some(BindingVersion(id, version))
  }

  datatype ReadField = IsGrant(id: string) | IsGuardrail(id: string) | IsBinding(b: BindingVersion) | Unreadable

  function Classify(field: string): ReadField {
    if StartsWith(field, GRANT) then IsGrant(field[|GRANT|..])
    else if StartsWith(field, GUARDRAIL) then IsGuardrail(field[|GUARDRAIL|..])
    else match ReadBinding(field) case None => Unreadable case Some(b) => IsBinding(b)
  }

  function Kinds(fields: seq<string>): (kinds: seq<ReadField>)
    ensures |kinds| == |fields|
  {
    seq(|fields|, i requires 0 <= i < |fields| => Classify(fields[i]))
  }

  function Collect(kinds: seq<ReadField>): Option<Lists> {
    if kinds == [] then Some(Lists([], [], []))
    else
      match (kinds[0], Collect(kinds[1..]))
      case (IsGrant(id), Some(rest)) => Some(rest.(grants := [id] + rest.grants))
      case (IsGuardrail(id), Some(rest)) => Some(rest.(guardrails := [id] + rest.guardrails))
      case (IsBinding(b), Some(rest)) => Some(rest.(bindings := [b] + rest.bindings))
      case _ => None
  }

  function ReadLists(fields: seq<string>): Option<Lists> {
    Collect(Kinds(fields))
  }

  function ReadPreimage(text: string): Option<Contents> {
    var fields := Split(text, UNIT_SEPARATOR);
    if |fields| < 3 then None
    else
      match (ParseDecimal(fields[2]), ReadLists(fields[3..]))
      case (Some(version), Some(lists)) =>
        Some(Contents(fields[0], fields[1], version, lists.bindings, lists.grants, lists.guardrails))
      case _ => None
  }

  // ---------- When the encoding is unambiguous ----------

  predicate NoSeparator(s: string) {
    UNIT_SEPARATOR !in s
  }

  predicate NoSeparators(ids: seq<string>) {
    forall i :: 0 <= i < |ids| ==> NoSeparator(ids[i])
  }

  predicate CleanBinding(b: BindingVersion) {
    NoSeparator(b.bindingId) && !StartsWith(b.bindingId, GRANT) && !StartsWith(b.bindingId, GUARDRAIL)
  }

  predicate CleanBindings(bs: seq<BindingVersion>) {
    forall i :: 0 <= i < |bs| ==> CleanBinding(bs[i])
  }

  predicate SeparatorFree(c: Contents) {
    && NoSeparator(c.scopeId) && NoSeparator(c.canonicalPath)
    && (forall i :: 0 <= i < |c.bindingVersions| ==> NoSeparator(c.bindingVersions[i].bindingId))
    && NoSeparators(c.grantIds) && NoSeparators(c.guardrailIds)
  }

  /** No id contains the separator and no binding id looks like a grant or a guardrail. */
  predicate Clean(c: Contents) {
    SeparatorFree(c) && CleanBindings(c.bindingVersions)
  }

  lemma ReadBindingField(b: BindingVersion)
    ensures ReadBinding(BindingField(b)) == Some(b)
  {
    assert ':' !in DIGITS;
    SplitLastColonOf(b.bindingId, Decimal(b.version));
    ParseOfDecimal(b.version);
  }

  lemma ClassifyWritten(id: string, b: BindingVersion)
    ensures Classify(GRANT + id) == IsGrant(id)
    ensures Classify(GUARDRAIL + id) == IsGuardrail(id)
    ensures CleanBinding(b) && |b.bindingId| >= 10 ==> Classify(BindingField(b)) == IsBinding(b)
  {
    var grant, guardrail := GRANT + id, GUARDRAIL + id;
    assert grant[|GRANT|..] == id && guardrail[|GUARDRAIL|..] == id;
    assert guardrail[1] == 'u' && GRANT[1] == 'r';
    ReadBindingField(b);
    if |b.bindingId| >= 10 {
      assert BindingField(b)[..|GRANT|] == b.bindingId[..|GRANT|];
      assert BindingField(b)[..|GUARDRAIL|] == b.bindingId[..|GUARDRAIL|];
    }
  }

  lemma {:induction false} BindingFieldsAt(bs: seq<BindingVersion>, i: nat)
    requires i < |bs|
    ensures BindingFields(bs)[i] == BindingField(bs[i])
  {
    if i > 0 {
      BindingFieldsAt(bs[1..], i - 1);
    }
  }

  lemma {:induction false} PrefixedAt(prefix: string, ids: seq<string>, i: nat)
    requires i < |ids|
    ensures Prefixed(prefix, ids)[i] == prefix + ids[i]
  {
    if i > 0 {
      PrefixedAt(prefix, ids[1..], i - 1);
    }
  }

  /** What the written fields are read as. */
  function WrittenKinds(bs: seq<BindingVersion>, grants: seq<string>, guardrails: seq<string>)
    : (kinds: seq<ReadField>)
    ensures |kinds| == |bs| + |grants| + |guardrails|
  {
    if bs != [] then [IsBinding(bs[0])] + WrittenKinds(bs[1..], grants, guardrails)
    else if grants != [] then [IsGrant(grants[0])] + WrittenKinds([], grants[1..], guardrails)
    else if guardrails != [] then [IsGuardrail(guardrails[0])] + WrittenKinds([], [], guardrails[1..])
    else []
  }

  lemma {:induction false} CollectWritten(bs: seq<BindingVersion>, grants: seq<string>, guardrails: seq<string>)
    ensures Collect(WrittenKinds(bs, grants, guardrails)) == Some(Lists(bs, grants, guardrails))
    decreases |bs| + |grants| + |guardrails|
  {
    var kinds := WrittenKinds(bs, grants, guardrails);
    if bs != [] {
      CollectWritten(bs[1..], grants, guardrails);
      assert kinds[1..] == WrittenKinds(bs[1..], grants, guardrails);
      assert [bs[0]] + bs[1..] == bs;
    } else if grants != [] {
      CollectWritten([], grants[1..], guardrails);
      assert kinds[1..] == WrittenKinds([], grants[1..], guardrails);
      assert [grants[0]] + grants[1..] == grants;
    } else if guardrails != [] {
      CollectWritten([], [], guardrails[1..]);
      assert kinds[1..] == WrittenKinds([], [], guardrails[1..]);
      assert [guardrails[0]] + guardrails[1..] == guardrails;
    }
  }

  lemma {:induction false} WrittenKindsAt(
    bs: seq<BindingVersion>, grants: seq<string>, guardrails: seq<string>, i: nat)
    requires i < |bs| + |grants| + |guardrails|
    ensures WrittenKinds(bs, grants, guardrails)[i] ==
            if i < |bs| then IsBinding(bs[i])
            else if i < |bs| + |grants| then IsGrant(grants[i - |bs|])
            else IsGuardrail(guardrails[i - |bs| - |grants|])
    decreases |bs| + |grants| + |guardrails|
  {
    var rest := |bs| + |grants| + |guardrails| - 1;
    if rest > 0 {
      var next := if i == 0 then 0 else i - 1;
      if bs != [] {
        WrittenKindsAt(bs[1..], grants, guardrails, next);
      } else if grants != [] {
        WrittenKindsAt([], grants[1..], guardrails, next);
      } else {
        WrittenKindsAt([], [], guardrails[1..], next);
      }
    }
  }

  lemma FieldKindAt(bs: seq<BindingVersion>, grants: seq<string>, guardrails: seq<string>, i: nat)
    requires i < |bs| + |grants| + |guardrails|
    requires i < |bs| ==> CleanBinding(bs[i]) && |bs[i].bindingId| >= 10
    ensures Classify((BindingFields(bs) + (Prefixed(GRANT, grants) + Prefixed(GUARDRAIL, guardrails)))[i])
            == WrittenKinds(bs, grants, guardrails)[i]
  {
    WrittenKindsAt(bs, grants, guardrails, i);
    if i < |bs| {
      BindingFieldsAt(bs, i);
      ClassifyWritten("", bs[i]);
    } else if i < |bs| + |grants| {
      PrefixedAt(GRANT, grants, i - |bs|);
      ClassifyWritten(grants[i - |bs|], BindingVersion("", 0));
    } else {
      PrefixedAt(GUARDRAIL, guardrails, i - |bs| - |grants|);
      ClassifyWritten(guardrails[i - |bs| - |grants|], BindingVersion("", 0));
    }
  }

  lemma ReadListsOfFields(bs: seq<BindingVersion>, grants: seq<string>, guardrails: seq<string>)
    requires CleanBindings(bs) && forall i :: 0 <= i < |bs| ==> |bs[i].bindingId| >= 10
    ensures ReadLists(BindingFields(bs) + (Prefixed(GRANT, grants) + Prefixed(GUARDRAIL, guardrails)))
            == Some(Lists(bs, grants, guardrails))
  {
    var fields := BindingFields(bs) + (Prefixed(GRANT, grants) + Prefixed(GUARDRAIL, guardrails));
    forall i | 0 <= i < |fields| ensures Kinds(fields)[i] == WrittenKinds(bs, grants, guardrails)[i] {
      FieldKindAt(bs, grants, guardrails, i);
    }
    assert Kinds(fields) == WrittenKinds(bs, grants, guardrails);
    CollectWritten(bs, grants, guardrails);
  }

  lemma FieldsHaveNoSeparator(c: Contents)
    requires SeparatorFree(c)
    ensures NoSeparators(Fields(c))
  {
    assert UNIT_SEPARATOR !in DIGITS;
    var nb, ng := |c.bindingVersions|, |c.grantIds|;
    forall i | 0 <= i < |Fields(c)| ensures NoSeparator(Fields(c)[i]) {
      if 3 <= i < 3 + nb {
        BindingFieldsAt(c.bindingVersions, i - 3);
      } else if 3 + nb <= i < 3 + nb + ng {
        PrefixedAt(GRANT, c.grantIds, i - 3 - nb);
      } else if 3 + nb + ng <= i {
        PrefixedAt(GUARDRAIL, c.guardrailIds, i - 3 - nb - ng);
      }
    }
  }

  predicate CleanKind(kind: ReadField) {
    match kind
    case IsGrant(id) => NoSeparator(id)
    case IsGuardrail(id) => NoSeparator(id)
    case IsBinding(b) => CleanBinding(b)
    case Unreadable => true
  }

  lemma ClassifiedIsClean(field: string)
    requires NoSeparator(field)
    ensures CleanKind(Classify(field))
  {
    SplitLastColonPrefix(field);
  }

  lemma {:induction false} CollectedAreClean(kinds: seq<ReadField>)
    requires forall i :: 0 <= i < |kinds| ==> CleanKind(kinds[i])
    ensures Collect(kinds).Some? ==>
              var lists := Collect(kinds).value;
              CleanBindings(lists.bindings) && NoSeparators(lists.grants) && NoSeparators(lists.guardrails)
  {
    if kinds != [] {
      CollectedAreClean(kinds[1..]);
    }
  }

  lemma ReadListsAreClean(fields: seq<string>)
    requires NoSeparators(fields)
    ensures ReadLists(fields).Some? ==>
              var lists := ReadLists(fields).value;
              CleanBindings(lists.bindings) && NoSeparators(lists.grants) && NoSeparators(lists.guardrails)
  {
    forall i | 0 <= i < |fields| ensures CleanKind(Kinds(fields)[i]) {
      ClassifiedIsClean(fields[i]);
    }
    CollectedAreClean(Kinds(fields));
  }

  /** Reading the digested text gives the contents back exactly when they are clean. */
  lemma ReadsBackIffClean(c: Contents)
    requires c.IsWellFormed()
    ensures ReadPreimage(Preimage(c)) == Some(c) <==> Clean(c)
  {
    var fields := Split(Preimage(c), UNIT_SEPARATOR);
    if Clean(c) {
      FieldsHaveNoSeparator(c);
      SplitOfJoin(Fields(c), UNIT_SEPARATOR);
      ParseOfDecimal(c.scopeVersion);
      ReadListsOfFields(c.bindingVersions, c.grantIds, c.guardrailIds);
      assert fields[3..] == BindingFields(c.bindingVersions)
                            + (Prefixed(GRANT, c.grantIds) + Prefixed(GUARDRAIL, c.guardrailIds));
    }
    if ReadPreimage(Preimage(c)) == Some(c) {
      ReadListsAreClean(fields[3..]);
    }
  }

  lemma CleanContentsAreDigestedApart(c: Contents, d: Contents)
    requires c.IsWellFormed() && d.IsWellFormed() && Clean(c) && Clean(d)
    requires Preimage(c) == Preimage(d)
    ensures c == d
  {
    ReadsBackIffClean(c);
    ReadsBackIffClean(d);
  }

  /** With one binding the first four fields are fixed, and the rest reads back as grants and guardrails. */
  lemma SingleBindingFields(c: Contents)
    requires |c.bindingVersions| == 1
    ensures |Fields(c)| >= 4
    ensures Fields(c)[0] == c.scopeId && Fields(c)[1] == c.canonicalPath && Fields(c)[2] == Decimal(c.scopeVersion)
    ensures Fields(c)[3] == BindingField(c.bindingVersions[0])
    ensures ReadLists(Fields(c)[4..]) == Some(Lists([], c.grantIds, c.guardrailIds))
  {
    BindingFieldsAt(c.bindingVersions, 0);
    ReadListsOfFields([], c.grantIds, c.guardrailIds);
    assert Fields(c)[4..] == BindingFields([]) + (Prefixed(GRANT, c.grantIds) + Prefixed(GUARDRAIL, c.guardrailIds));
  }

  /** Sealing puts exactly one binding into a context; then only the separator can confuse two contents. */
  lemma SingleBindingContentsAreDigestedApart(c: Contents, d: Contents)
    requires |c.bindingVersions| == 1 && |d.bindingVersions| == 1
    requires SeparatorFree(c) && SeparatorFree(d)
    requires Preimage(c) == Preimage(d)
    ensures c == d
  {
    SameFields(c, d);
    SingleBindingFields(c);
    SingleBindingFields(d);
    DecimalInjective(c.scopeVersion, d.scopeVersion);
    ReadBindingField(c.bindingVersions[0]);
    ReadBindingField(d.bindingVersions[0]);
    assert c.bindingVersions == [c.bindingVersions[0]] && d.bindingVersions == [d.bindingVersions[0]];
  }

  /** The ids that say where a one-binding context leads contain no separator; grants and guardrails may. */
  predicate RoutesClearly(c: Contents) {
    && NoSeparator(c.scopeId) && NoSeparator(c.canonicalPath)
    && |c.bindingVersions| == 1 && NoSeparator(c.bindingVersions[0].bindingId)
  }

  predicate SameRouting(c: Contents, d: Contents) {
    && c.scopeId == d.scopeId && c.canonicalPath == d.canonicalPath && c.scopeVersion == d.scopeVersion
    && c.bindingVersions == d.bindingVersions
  }

  lemma RoutingFields(c: Contents)
    requires RoutesClearly(c)
    ensures var fields := [c.scopeId, c.canonicalPath, Decimal(c.scopeVersion), BindingField(c.bindingVersions[0])];
            |Split(Preimage(c), UNIT_SEPARATOR)| >= 4 && Split(Preimage(c), UNIT_SEPARATOR)[..4] == fields
  {
    SingleBindingFields(c);
    assert UNIT_SEPARATOR !in DIGITS;
    SplitOfJoinStart(Fields(c), UNIT_SEPARATOR, 4);
    assert Fields(c)[..4] == [Fields(c)[0], Fields(c)[1], Fields(c)[2], Fields(c)[3]];
  }

  /** Whatever the evidence ids contain, equal texts mean the same scope, path, scope version and binding version. */
  lemma RoutingIsDigestedApart(c: Contents, d: Contents)
    requires RoutesClearly(c) && RoutesClearly(d) && Preimage(c) == Preimage(d)
    ensures SameRouting(c, d)
  {
    RoutingFields(c);
    RoutingFields(d);
    DecimalInjective(c.scopeVersion, d.scopeVersion);
    ReadBindingField(c.bindingVersions[0]);
    ReadBindingField(d.bindingVersions[0]);
    assert c.bindingVersions == [c.bindingVersions[0]] && d.bindingVersions == [d.bindingVersions[0]];
  }

  lemma SameFields(c: Contents, d: Contents)
    requires SeparatorFree(c) && SeparatorFree(d) && Preimage(c) == Preimage(d)
    ensures Fields(c) == Fields(d)
  {
    FieldsHaveNoSeparator(c);
    FieldsHaveNoSeparator(d);
    SplitOfJoin(Fields(c), UNIT_SEPARATOR);
    SplitOfJoin(Fields(d), UNIT_SEPARATOR);
  }
}
