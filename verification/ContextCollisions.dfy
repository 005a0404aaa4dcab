/** Which sealed contexts share their digested text with others, and two concrete ways they do. */
module ContextCollisions {
  import opened Sequences
  import opened Strings
  import opened ContextDigests

  // ---------- Exactly which contents share their text with others ----------

  /** The field is what a well-formed binding would be written as, under an id that is not among these. */
  predicate LooksLikeNewBinding(field: string, ids: seq<string>) {
    match ReadBinding(field)
    case None => false
    case Some(b) => |b.bindingId| >= 10 && b.version >= 1 && BindingField(b) == field && b.bindingId !in ids
  }

  /** The first field after the bindings could be one more binding. */
  predicate EvidenceCanPoseAsBinding(c: Contents) {
    if c.grantIds != [] then LooksLikeNewBinding(GRANT + c.grantIds[0], c.BindingIds())
    else c.guardrailIds != [] && LooksLikeNewBinding(GUARDRAIL + c.guardrailIds[0], c.BindingIds())
  }

  /** The last of several bindings could be one more grant, or one more guardrail if no grant follows it. */
  predicate LastBindingCanPoseAsEvidence(c: Contents) {
    && |c.bindingVersions| >= 2
    && var id := c.bindingVersions[|c.bindingVersions| - 1].bindingId;
       StartsWith(id, GRANT) || (StartsWith(id, GUARDRAIL) && c.grantIds == [])
  }

  /** Other contents that a context object accepts, with the same text. */
  ghost predicate IsDouble(c: Contents, d: Contents) {
    d.IsSealable() && SeparatorFree(d) && d != c && Preimage(d) == Preimage(c)
  }

  lemma FieldAt(c: Contents, i: nat)
    requires 3 <= i < |Fields(c)|
    ensures var nb, ng := |c.bindingVersions|, |c.grantIds|;
            && |Fields(c)| == 3 + nb + ng + |c.guardrailIds|
            && Fields(c)[i] == if i < 3 + nb then BindingField(c.bindingVersions[i - 3])
                               else if i < 3 + nb + ng then GRANT + c.grantIds[i - 3 - nb]
                               else GUARDRAIL + c.guardrailIds[i - 3 - nb - ng]
  {
    var nb, ng := |c.bindingVersions|, |c.grantIds|;
    if i < 3 + nb {
      BindingFieldsAt(c.bindingVersions, i - 3);
    } else if i < 3 + nb + ng {
      PrefixedAt(GRANT, c.grantIds, i - 3 - nb);
    } else {
      PrefixedAt(GUARDRAIL, c.guardrailIds, i - 3 - nb - ng);
    }
  }

  /** Behind the bindings, grants and guardrails are told apart by how their fields start. */
  lemma EvidenceField(c: Contents, i: nat)
    requires 3 + |c.bindingVersions| <= i < |Fields(c)|
    ensures StartsWith(Fields(c)[i], GRANT) <==> i < 3 + |c.bindingVersions| + |c.grantIds|
    ensures StartsWith(Fields(c)[i], GUARDRAIL) <==> i >= 3 + |c.bindingVersions| + |c.grantIds|
  {
    FieldAt(c, i);
    assert GRANT[1] == 'r' && GUARDRAIL[1] == 'u';
  }

  lemma BindingFieldStarts(b: BindingVersion, prefix: string)
    requires |b.bindingId| >= |prefix|
    ensures StartsWith(BindingField(b), prefix) <==> StartsWith(b.bindingId, prefix)
  {
    assert BindingField(b)[..|prefix|] == b.bindingId[..|prefix|];
  }

  lemma SameBindingAt(c: Contents, d: Contents, i: nat)
    requires Fields(c) == Fields(d) && i < |c.bindingVersions| && i < |d.bindingVersions|
    ensures c.bindingVersions[i] == d.bindingVersions[i]
  {
    FieldAt(c, 3 + i);
    FieldAt(d, 3 + i);
    ReadBindingField(c.bindingVersions[i]);
    ReadBindingField(d.bindingVersions[i]);
  }

  lemma FewerBindings(c: Contents, d: Contents)
    requires d.IsSealable() && Fields(c) == Fields(d) && |c.bindingVersions| < |d.bindingVersions|
    ensures EvidenceCanPoseAsBinding(c)
  {
    var nb := |c.bindingVersions|;
    var b := d.bindingVersions[nb];
    FieldAt(d, 3 + nb);
    FieldAt(c, 3 + nb);
    ReadBindingField(b);
    forall i | 0 <= i < nb ensures c.BindingIds()[i] != b.bindingId {
      SameBindingAt(c, d, i);
      assert d.BindingIds()[i] != d.BindingIds()[nb];
    }
  }

  lemma LastBindingField(c: Contents)
    requires c.IsWellFormed()
    ensures var nb := |c.bindingVersions|;
            && |Fields(c)| == 3 + nb + |c.grantIds| + |c.guardrailIds|
            && var (field, id) := (Fields(c)[2 + nb], c.bindingVersions[nb - 1].bindingId);
               && (StartsWith(field, GRANT) <==> StartsWith(id, GRANT))
               && (StartsWith(field, GUARDRAIL) <==> StartsWith(id, GUARDRAIL))
  {
    var nb := |c.bindingVersions|;
    FieldAt(c, 2 + nb);
    BindingFieldStarts(c.bindingVersions[nb - 1], GRANT);
    BindingFieldStarts(c.bindingVersions[nb - 1], GUARDRAIL);
  }

  lemma MoreBindings(c: Contents, d: Contents)
    requires c.IsWellFormed() && d.IsWellFormed()
    requires Fields(c) == Fields(d) && |d.bindingVersions| < |c.bindingVersions|
    ensures LastBindingCanPoseAsEvidence(c)
  {
    var nb := |c.bindingVersions|;
    LastBindingField(c);
    EvidenceField(d, 2 + nb);
    if c.grantIds != [] {
      EvidenceField(c, 3 + nb);
      EvidenceField(d, 3 + nb);
    }
  }

  lemma NoFewerGrants(c: Contents, d: Contents)
    requires Fields(c) == Fields(d) && |c.bindingVersions| == |d.bindingVersions|
    ensures |c.grantIds| >= |d.grantIds|
  {
    var behind := 3 + |c.bindingVersions| + |c.grantIds|;
    if |c.grantIds| < |d.grantIds| {
      EvidenceField(c, behind);
      EvidenceField(d, behind);
    }
  }

  lemma FieldsBeginAlike(c: Contents, d: Contents)
    requires Fields(c) == Fields(d)
    ensures c.scopeId == d.scopeId && c.canonicalPath == d.canonicalPath && c.scopeVersion == d.scopeVersion
  {
    assert Fields(c)[0] == c.scopeId && Fields(c)[1] == c.canonicalPath && Fields(c)[2] == Decimal(c.scopeVersion);
    assert Fields(d)[0] == d.scopeId && Fields(d)[1] == d.canonicalPath && Fields(d)[2] == Decimal(d.scopeVersion);
    DecimalInjective(c.scopeVersion, d.scopeVersion);
  }

  lemma PrefixedInjective(prefix: string, ids: seq<string>, others: seq<string>)
    requires Prefixed(prefix, ids) == Prefixed(prefix, others)
    ensures ids == others
  {
    forall i | 0 <= i < |ids| ensures ids[i] == others[i] {
      PrefixedAt(prefix, ids, i);
      PrefixedAt(prefix, others, i);
      assert (prefix + ids[i])[|prefix|..] == ids[i] && (prefix + others[i])[|prefix|..] == others[i];
    }
  }

  lemma PartsOfFields(c: Contents)
    ensures var nb, ng := |c.bindingVersions|, |c.grantIds|;
            && |Fields(c)| == 3 + nb + ng + |c.guardrailIds|
            && Fields(c)[3..3 + nb] == BindingFields(c.bindingVersions)
            && Fields(c)[3 + nb..3 + nb + ng] == Prefixed(GRANT, c.grantIds)
            && Fields(c)[3 + nb + ng..] == Prefixed(GUARDRAIL, c.guardrailIds)
  {
  }

  lemma AsManyBindings(c: Contents, d: Contents)
    requires Fields(c) == Fields(d) && |c.bindingVersions| == |d.bindingVersions|
    ensures c == d
  {
    NoFewerGrants(c, d);
    NoFewerGrants(d, c);
    FieldsBeginAlike(c, d);
    PartsOfFields(c);
    PartsOfFields(d);
    forall i | 0 <= i < |c.bindingVersions| ensures c.bindingVersions[i] == d.bindingVersions[i] {
      SameBindingAt(c, d, i);
    }
    PrefixedInjective(GRANT, c.grantIds, d.grantIds);
    PrefixedInjective(GUARDRAIL, c.guardrailIds, d.guardrailIds);
  }

  lemma {:induction false} BindingFieldsAppend(bs: seq<BindingVersion>, b: BindingVersion)
    ensures BindingFields(bs + [b]) == BindingFields(bs) + [BindingField(b)]
  {
    if bs == [] {
      assert [] + [b] == [b];
    } else {
      assert (bs + [b])[1..] == bs[1..] + [b];
      BindingFieldsAppend(bs[1..], b);
    }
  }

  /** Moving the first grant behind the bindings keeps the fields. */
  lemma FirstGrantMoved(c: Contents, b: BindingVersion)
    requires c.grantIds != [] && BindingField(b) == GRANT + c.grantIds[0]
    ensures Fields(c.(bindingVersions := c.bindingVersions + [b], grantIds := c.grantIds[1..])) == Fields(c)
  {
    BindingFieldsAppend(c.bindingVersions, b);
    var bindings, grants := BindingFields(c.bindingVersions), Prefixed(GRANT, c.grantIds[1..]);
    var rest := Prefixed(GUARDRAIL, c.guardrailIds);
    assert bindings + [BindingField(b)] + (grants + rest) == bindings + ([GRANT + c.grantIds[0]] + grants + rest);
  }

  /** Without grants the first guardrail can move there. */
  lemma FirstGuardrailMoved(c: Contents, b: BindingVersion)
    requires c.grantIds == [] && c.guardrailIds != [] && BindingField(b) == GUARDRAIL + c.guardrailIds[0]
    ensures Fields(c.(bindingVersions := c.bindingVersions + [b], guardrailIds := c.guardrailIds[1..])) == Fields(c)
  {
    BindingFieldsAppend(c.bindingVersions, b);
    var bindings, rest := BindingFields(c.bindingVersions), Prefixed(GUARDRAIL, c.guardrailIds[1..]);
    assert bindings + [BindingField(b)] + ([] + rest) == bindings + ([] + ([GUARDRAIL + c.guardrailIds[0]] + rest));
  }

  /** The binding that a field without a separator looks like has no separator in its id. */
  lemma PosedBinding(field: string, ids: seq<string>) returns (b: BindingVersion)
    requires LooksLikeNewBinding(field, ids) && NoSeparator(field)
    ensures BindingField(b) == field && b.bindingId !in ids
    ensures |b.bindingId| >= 10 && b.version >= 1 && NoSeparator(b.bindingId)
  {
    b := ReadBinding(field).value;
    assert b.bindingId == field[..|b.bindingId|];
  }

  lemma OneMoreBinding(c: Contents, b: BindingVersion)
    requires c.IsSealable() && SeparatorFree(c)
    requires |b.bindingId| >= 10 && b.version >= 1 && NoSeparator(b.bindingId) && b.bindingId !in c.BindingIds()
    ensures var d := c.(bindingVersions := c.bindingVersions + [b]); d.IsSealable() && SeparatorFree(d)
  {
    var d := c.(bindingVersions := c.bindingVersions + [b]);
    assert d.BindingIds() == c.BindingIds() + [b.bindingId];
    DistinctAppend(c.BindingIds(), b.bindingId);
  }

  lemma GrantAsBinding(c: Contents) returns (d: Contents)
    requires c.IsSealable() && SeparatorFree(c) && c.grantIds != [] && EvidenceCanPoseAsBinding(c)
    ensures IsDouble(c, d)
  {
    assert NoSeparator(c.grantIds[0]) && NoSeparators(c.grantIds[1..]);
    var b := PosedBinding(GRANT + c.grantIds[0], c.BindingIds());
    OneMoreBinding(c, b);
    FirstGrantMoved(c, b);
    var longer := c.(bindingVersions := c.bindingVersions + [b]);
    d := longer.(grantIds := c.grantIds[1..]);
    assert d.BindingIds() == longer.BindingIds();
    assert |d.bindingVersions| > |c.bindingVersions|;
  }

  lemma GuardrailAsBinding(c: Contents) returns (d: Contents)
    requires c.IsSealable() && SeparatorFree(c) && c.grantIds == [] && EvidenceCanPoseAsBinding(c)
    ensures IsDouble(c, d)
  {
    assert NoSeparator(c.guardrailIds[0]) && NoSeparators(c.guardrailIds[1..]);
    var b := PosedBinding(GUARDRAIL + c.guardrailIds[0], c.BindingIds());
    OneMoreBinding(c, b);
    FirstGuardrailMoved(c, b);
    var longer := c.(bindingVersions := c.bindingVersions + [b]);
    d := longer.(guardrailIds := c.guardrailIds[1..]);
    assert d.BindingIds() == longer.BindingIds();
    assert |d.bindingVersions| > |c.bindingVersions|;
  }

  lemma OneBindingLess(c: Contents)
    requires c.IsSealable() && SeparatorFree(c) && |c.bindingVersions| >= 2
    ensures var d := c.(bindingVersions := c.bindingVersions[..|c.bindingVersions| - 1]);
            d.IsSealable() && SeparatorFree(d)
  {
    var d := c.(bindingVersions := c.bindingVersions[..|c.bindingVersions| - 1]);
    assert d.BindingIds() == c.BindingIds()[..|c.bindingVersions| - 1];
  }

  lemma LastBindingAsEvidence(c: Contents) returns (d: Contents)
    requires c.IsSealable() && SeparatorFree(c) && LastBindingCanPoseAsEvidence(c)
    ensures IsDouble(c, d)
  {
    var nb := |c.bindingVersions|;
    var bs, b := c.bindingVersions[..nb - 1], c.bindingVersions[nb - 1];
    assert bs + [b] == c.bindingVersions;
    OneBindingLess(c);
    var fewer := c.(bindingVersions := bs);
    var prefix := if StartsWith(b.bindingId, GRANT) then GRANT else GUARDRAIL;
    var field := BindingField(b);
    var id := field[|prefix|..];
    assert field == prefix + id;
    assert UNIT_SEPARATOR !in DIGITS;
    assert NoSeparator(field);
    d := if prefix == GRANT then fewer.(grantIds := [id] + c.grantIds)
         else fewer.(guardrailIds := [id] + c.guardrailIds);
    assert d.BindingIds() == fewer.BindingIds() && |d.bindingVersions| < |c.bindingVersions|;
    if prefix == GRANT {
      FirstGrantMoved(d, b);
      assert d.(bindingVersions := bs + [b], grantIds := d.grantIds[1..]) == c;
    } else {
      FirstGuardrailMoved(d, b);
      assert d.(bindingVersions := bs + [b], guardrailIds := d.guardrailIds[1..]) == c;
    }
  }

  /**
   * Contents without separators share their text with others exactly when one field can be read twice. Both are
   * contents that a context object accepts, so a field cannot be read as a binding that is already there.
   */
  lemma SharesItsTextIff(c: Contents)
    requires c.IsSealable() && SeparatorFree(c)
    ensures (exists d :: IsDouble(c, d)) <==> EvidenceCanPoseAsBinding(c) || LastBindingCanPoseAsEvidence(c)
  {
    forall d | IsDouble(c, d) ensures EvidenceCanPoseAsBinding(c) || LastBindingCanPoseAsEvidence(c) {
      SameFields(c, d);
      if |c.bindingVersions| < |d.bindingVersions| {
        FewerBindings(c, d);
      } else if |d.bindingVersions| < |c.bindingVersions| {
        MoreBindings(c, d);
      } else {
        AsManyBindings(c, d);
      }
    }
    if EvidenceCanPoseAsBinding(c) {
      if c.grantIds != [] {
        var d := GrantAsBinding(c);
      } else {
        var d := GuardrailAsBinding(c);
      }
    } else if LastBindingCanPoseAsEvidence(c) {
      var d := LastBindingAsEvidence(c);
    }
  }

  // ---------- One binding, and doubles with separators ----------

  predicate EndsLikeBinding(field: string) {
    match ReadBinding(field)
    case None => false
    case Some(b) => b.version >= 1 && BindingField(b) == field
  }

  function Evidence(c: Contents): seq<string> {
    Prefixed(GRANT, c.grantIds) + Prefixed(GUARDRAIL, c.guardrailIds)
  }

  /** One-binding contents that a context object accepts, with the same text; their ids may contain separators. */
  ghost predicate IsOneBindingDouble(c: Contents, d: Contents) {
    d.IsSealable() && |d.bindingVersions| == 1 && d != c && Preimage(d) == Preimage(c)
  }

  lemma OneBindingFields(c: Contents)
    requires |c.bindingVersions| == 1
    ensures Fields(c) == [c.scopeId, c.canonicalPath, Decimal(c.scopeVersion), BindingField(c.bindingVersions[0])]
                         + Evidence(c)
  {
    assert BindingFields(c.bindingVersions) == [BindingField(c.bindingVersions[0])];
  }

  lemma LaterFieldsHaveColons(c: Contents, i: nat)
    requires 3 <= i < |Fields(c)|
    ensures ':' in Fields(c)[i]
  {
    FieldAt(c, i);
    assert GRANT[5] == ':' && GUARDRAIL[9] == ':';
    assert ":"[0] == ':';
  }

  lemma PiecesOfOneBinding(d: Contents)
    requires |d.bindingVersions| == 1
    ensures Split(Preimage(d), UNIT_SEPARATOR)
            == Split(d.scopeId, UNIT_SEPARATOR)
               + (Split(d.canonicalPath, UNIT_SEPARATOR)
                  + ([Decimal(d.scopeVersion)]
                     + (Split(BindingField(d.bindingVersions[0]), UNIT_SEPARATOR)
                        + SplitAll(Evidence(d), UNIT_SEPARATOR))))
  {
    OneBindingFields(d);
    SplitOfJoinAny(Fields(d), UNIT_SEPARATOR);
    assert UNIT_SEPARATOR !in DIGITS;
    SplitSeparated(Decimal(d.scopeVersion), [], UNIT_SEPARATOR);
    var fromBinding := [BindingField(d.bindingVersions[0])] + Evidence(d);
    var fromVersion := [Decimal(d.scopeVersion)] + fromBinding;
    var fromPath := [d.canonicalPath] + fromVersion;
    assert Fields(d) == [d.scopeId] + fromPath;
    SplitAllCons(d.scopeId, fromPath, UNIT_SEPARATOR);
    SplitAllCons(d.canonicalPath, fromVersion, UNIT_SEPARATOR);
    SplitAllCons(Decimal(d.scopeVersion), fromBinding, UNIT_SEPARATOR);
    SplitAllCons(BindingField(d.bindingVersions[0]), Evidence(d), UNIT_SEPARATOR);
  }

  lemma ThirdField(fields: seq<string>, ids: seq<string>, paths: seq<string>, third: string, rest: seq<string>)
    requires fields == ids + (paths + ([third] + rest)) && |ids| >= 1 && |paths| >= 1
    ensures |ids| + |paths| < |fields| && fields[|ids| + |paths|] == third
    ensures |ids| + |paths| == 2 ==>
              ids == [fields[0]] && paths == [fields[1]] && third == fields[2] && rest == fields[3..]
  {
  }

  /** Only the third field is a numeral, so the first three fields can be read in one way only. */
  lemma DoubleBeginsAlike(c: Contents, d: Contents)
    requires SeparatorFree(c) && |d.bindingVersions| == 1 && Preimage(d) == Preimage(c)
    ensures c.scopeId == d.scopeId && c.canonicalPath == d.canonicalPath && c.scopeVersion == d.scopeVersion
    ensures Fields(c)[3..] == Split(BindingField(d.bindingVersions[0]), UNIT_SEPARATOR)
                              + SplitAll(Evidence(d), UNIT_SEPARATOR)
  {
    FieldsHaveNoSeparator(c);
    SplitOfJoin(Fields(c), UNIT_SEPARATOR);
    assert Split(Preimage(c), UNIT_SEPARATOR) == Fields(c);
    PiecesOfOneBinding(d);
    var ids, paths := Split(d.scopeId, UNIT_SEPARATOR), Split(d.canonicalPath, UNIT_SEPARATOR);
    ThirdField(
      Fields(c), ids, paths, Decimal(d.scopeVersion),
      Split(BindingField(d.bindingVersions[0]), UNIT_SEPARATOR) + SplitAll(Evidence(d), UNIT_SEPARATOR));
    assert ':' !in DIGITS;
    if |ids| + |paths| >= 3 {
      LaterFieldsHaveColons(c, |ids| + |paths|);
    }
    JoinOfSplit(d.scopeId, UNIT_SEPARATOR);
    JoinOfSplit(d.canonicalPath, UNIT_SEPARATOR);
    DecimalInjective(c.scopeVersion, d.scopeVersion);
  }

  lemma AbsorbedField(b: BindingVersion, front: string, field: string)
    requires BindingField(b) == front + [UNIT_SEPARATOR] + field && ':' in field && b.version >= 1
    ensures EndsLikeBinding(field)
  {
    var head, tail := LastColon(field);
    SplitLastColonOf(front + [UNIT_SEPARATOR] + head, tail);
    assert front + [UNIT_SEPARATOR] + field == front + [UNIT_SEPARATOR] + head + ":" + tail;
    assert ':' !in DIGITS;
    SplitLastColonOf(b.bindingId, Decimal(b.version));
    SplitLastColonOf(head, tail);
    ParseOfDecimal(b.version);
  }

  lemma FewEvidenceFields(c: Contents, d: Contents)
    requires |c.bindingVersions| == 1 && SeparatorFree(c) && |Evidence(c)| <= 1 && IsOneBindingDouble(c, d)
    ensures |Evidence(c)| == 1 && EndsLikeBinding(Evidence(c)[0])
  {
    DoubleBeginsAlike(c, d);
    OneBindingFields(c);
    OneBindingFields(d);
    var fields, field := Fields(c)[3..], BindingField(d.bindingVersions[0]);
    assert fields == [BindingField(c.bindingVersions[0])] + Evidence(c);
    SplitAllIsLonger(Evidence(d), UNIT_SEPARATOR);
    JoinOfSplit(field, UNIT_SEPARATOR);
    if |Split(field, UNIT_SEPARATOR)| == 1 {
      assert field == fields[0];
      assert SplitAll(Evidence(d), UNIT_SEPARATOR) == fields[1..] == Evidence(c);
      if |Evidence(c)| == 1 {
        SplitAllOfOne(Evidence(d), UNIT_SEPARATOR);
      }
      assert Fields(c) == Fields(d);
      AsManyBindings(c, d);
      assert false;
    } else {
      assert |Evidence(c)| == 1 && SplitAll(Evidence(d), UNIT_SEPARATOR) == [];
      assert Split(field, UNIT_SEPARATOR) == fields == [fields[0], fields[1]];
      assert field == fields[0] + [UNIT_SEPARATOR] + fields[1];
      LaterFieldsHaveColons(c, 4);
      AbsorbedField(d.bindingVersions[0], fields[0], Evidence(c)[0]);
    }
  }

  lemma EvidenceAbsorbed(c: Contents) returns (d: Contents)
    requires c.IsWellFormed() && |c.bindingVersions| == 1 && |Evidence(c)| == 1 && EndsLikeBinding(Evidence(c)[0])
    ensures IsOneBindingDouble(c, d)
  {
    var field, e := BindingField(c.bindingVersions[0]), Evidence(c)[0];
    var b := ReadBinding(e).value;
    var longer := BindingVersion(field + [UNIT_SEPARATOR] + b.bindingId, b.version);
    d := c.(bindingVersions := [longer], grantIds := [], guardrailIds := []);
    assert BindingField(longer) == field + [UNIT_SEPARATOR] + e;
    OneBindingFields(c);
    OneBindingFields(d);
    var head := [c.scopeId, c.canonicalPath, Decimal(c.scopeVersion)];
    assert Fields(c) == head + [field, e] + [];
    assert Fields(d) == head + [field + [UNIT_SEPARATOR] + e] + [];
    JoinMerged(head, field, e, [], UNIT_SEPARATOR);
  }

  /** The first two ids of a list can be one id with the separator in it. */
  lemma IdsMerged(prefix: string, ids: seq<string>)
    requires |ids| >= 2
    ensures var fields := Prefixed(prefix, ids);
            Prefixed(prefix, [ids[0] + [UNIT_SEPARATOR] + prefix + ids[1]] + ids[2..])
            == [fields[0] + [UNIT_SEPARATOR] + fields[1]] + fields[2..]
  {
    var x, rest := ids[0] + [UNIT_SEPARATOR] + prefix + ids[1], ids[2..];
    assert ([x] + rest)[1..] == rest && ids[1..][1..] == rest;
    assert Prefixed(prefix, ids) == [prefix + ids[0]] + ([prefix + ids[1]] + Prefixed(prefix, rest));
    assert prefix + x == (prefix + ids[0]) + [UNIT_SEPARATOR] + (prefix + ids[1]);
  }

  lemma GrantsMerged(c: Contents) returns (d: Contents)
    requires c.IsWellFormed() && |c.bindingVersions| == 1 && |c.grantIds| >= 2
    ensures IsOneBindingDouble(c, d)
  {
    var ids := c.grantIds;
    d := c.(grantIds := [ids[0] + [UNIT_SEPARATOR] + GRANT + ids[1]] + ids[2..]);
    IdsMerged(GRANT, ids);
    MergedEvidenceSharesText(c, d);
  }

  lemma GuardrailsMerged(c: Contents) returns (d: Contents)
    requires c.IsWellFormed() && |c.bindingVersions| == 1 && c.grantIds == [] && |c.guardrailIds| >= 2
    ensures IsOneBindingDouble(c, d)
  {
    var ids := c.guardrailIds;
    d := c.(guardrailIds := [ids[0] + [UNIT_SEPARATOR] + GUARDRAIL + ids[1]] + ids[2..]);
    IdsMerged(GUARDRAIL, ids);
    MergedEvidenceSharesText(c, d);
  }

  lemma GrantAndGuardrailMerged(c: Contents) returns (d: Contents)
    requires c.IsWellFormed() && |c.bindingVersions| == 1 && |c.grantIds| == 1 && |c.guardrailIds| >= 1
    ensures IsOneBindingDouble(c, d)
  {
    var g, r := c.grantIds[0], c.guardrailIds[0];
    var id := g + [UNIT_SEPARATOR] + GUARDRAIL + r;
    d := c.(grantIds := [id], guardrailIds := c.guardrailIds[1..]);
    assert Prefixed(GRANT, c.grantIds) == [GRANT + g] && Prefixed(GRANT, [id]) == [GRANT + id];
    assert GRANT + id == (GRANT + g) + [UNIT_SEPARATOR] + (GUARDRAIL + r);
    MergedEvidenceSharesText(c, d);
  }

  lemma MergedEvidenceSharesText(c: Contents, d: Contents)
    requires |c.bindingVersions| == 1 && |Evidence(c)| >= 2
    requires c.scopeId == d.scopeId && c.canonicalPath == d.canonicalPath && c.scopeVersion == d.scopeVersion
    requires c.bindingVersions == d.bindingVersions
    requires Evidence(d) == [Evidence(c)[0] + [UNIT_SEPARATOR] + Evidence(c)[1]] + Evidence(c)[2..]
    ensures Preimage(d) == Preimage(c) && d != c
  {
    OneBindingFields(c);
    OneBindingFields(d);
    var head := [c.scopeId, c.canonicalPath, Decimal(c.scopeVersion), BindingField(c.bindingVersions[0])];
    var e := Evidence(c);
    assert Fields(c) == head + [e[0], e[1]] + e[2..];
    assert Fields(d) == head + [e[0] + [UNIT_SEPARATOR] + e[1]] + e[2..];
    JoinMerged(head, e[0], e[1], e[2..], UNIT_SEPARATOR);
    assert |Evidence(d)| < |Evidence(c)|;
  }

  /**
   * Sealing checks no id for separators. If other ids may contain them, one-binding contents without any share their
   * text with other one-binding contents exactly when they name two grants or guardrails, or one that ends like a
   * binding.
   */
  lemma SharesItsTextWithSeparatorsIff(c: Contents)
    requires c.IsWellFormed() && |c.bindingVersions| == 1 && SeparatorFree(c)
    ensures (exists d :: IsOneBindingDouble(c, d)) <==>
            |Evidence(c)| >= 2 || (|Evidence(c)| == 1 && EndsLikeBinding(Evidence(c)[0]))
  {
    forall d | IsOneBindingDouble(c, d)
      ensures |Evidence(c)| >= 2 || (|Evidence(c)| == 1 && EndsLikeBinding(Evidence(c)[0]))
    {
      if |Evidence(c)| <= 1 {
        FewEvidenceFields(c, d);
      }
    }
    if |Evidence(c)| >= 2 {
      if |c.grantIds| >= 2 {
        var d := GrantsMerged(c);
      } else if |c.grantIds| == 1 {
        var d := GrantAndGuardrailMerged(c);
      } else {
        var d := GuardrailsMerged(c);
      }
    } else if |Evidence(c)| == 1 && EndsLikeBinding(Evidence(c)[0]) {
      var d := EvidenceAbsorbed(c);
    }
  }

  // ---------- Two ways to confuse the digest ----------

  /** A binding id may look like a grant: a two-binding context and a one-binding context share their text. */
  lemma BindingCanPoseAsGrant()
    ensures var b := BindingVersion("binding_aa", 1);
            var c := Contents("scope_aa", "p", 1, [b, BindingVersion("grant:abcd", 1)], [], []);
            var d := Contents("scope_aa", "p", 1, [b], ["abcd:1"], []);
            c.IsSealable() && d.IsSealable() && c != d && Preimage(c) == Preimage(d)
  {
    var b, g := BindingVersion("binding_aa", 1), BindingVersion("grant:abcd", 1);
    assert b.bindingId[0] != g.bindingId[0];
    assert BindingFields([b, g]) == [BindingField(b), BindingField(g)];
    assert BindingFields([b]) == [BindingField(b)];
    assert Prefixed(GRANT, ["abcd:1"]) == [GRANT + "abcd:1"];
    assert Decimal(1) == "1";
    assert BindingField(g) == "grant:abcd:1" == GRANT + "abcd:1";
    var c := Contents("scope_aa", "p", 1, [b, g], [], []);
    var d := Contents("scope_aa", "p", 1, [b], ["abcd:1"], []);
    assert Fields(c) == Fields(d);
  }

  /** An id that contains the separator splits in two: one grant and two grants share their text. */
  lemma SeparatorCanSplitAnId()
    ensures var b := BindingVersion("binding_aa", 1);
            var joined := "scopebind_a" + [UNIT_SEPARATOR] + GRANT + "scopebind_b";
            var c := Contents("scope_aa", "p", 1, [b], [joined], []);
            var d := Contents("scope_aa", "p", 1, [b], ["scopebind_a", "scopebind_b"], []);
            c.IsSealable() && d.IsSealable() && c != d && Preimage(c) == Preimage(d)
  {
    var b, first, second := BindingVersion("binding_aa", 1), "scopebind_a", "scopebind_b";
    var joined := first + [UNIT_SEPARATOR] + GRANT + second;
    var c := Contents("scope_aa", "p", 1, [b], [joined], []);
    var d := Contents("scope_aa", "p", 1, [b], [first, second], []);
    assert Prefixed(GRANT, [joined]) == [GRANT + joined];
    assert Prefixed(GRANT, [first, second]) == [GRANT + first, GRANT + second];
    assert Evidence(d) == [GRANT + first, GRANT + second];
    assert GRANT + joined == GRANT + first + [UNIT_SEPARATOR] + (GRANT + second);
    MergedEvidenceSharesText(d, c);
  }
}
