/** The text form `org:bu/project/workspace` of a scope hint: parser and printer undo each other. */
module ScopeHints {
  import opened Wrappers
  import opened Strings
  import opened GatewaySchemas

  datatype ParseError = ScopeForm | TenantForm

  function Parse(value: string): Result<ScopeHint, ParseError> {
    var parts := Split(value, '/');
    if |parts| != 3 || [] in parts then Err(ScopeForm)
    else
      var tenant := Split(parts[0], ':');
      if |tenant| != 2 || [] in tenant then Err(TenantForm)
      else Ok(ScopeHint(Tenant(tenant[0], tenant[1]), Some(parts[1]), Some(parts[2])))
  }

  /** A missing field prints as Python's None. */
  function Shown(field: Option<string>): string {
    if field.Some? then field.value else "None"
  }

  function Print(h: ScopeHint): string {
    h.tenant.OrgBu() + "/" + Shown(h.project) + "/" + Shown(h.workspace)
  }

  predicate IsPrintable(h: ScopeHint) {
    && h.tenant.org != "" && h.tenant.bu != ""
    && '/' !in h.tenant.org && ':' !in h.tenant.org && '/' !in h.tenant.bu && ':' !in h.tenant.bu
    && h.project.Some? && h.project.value != "" && '/' !in h.project.value
    && h.workspace.Some? && h.workspace.value != "" && '/' !in h.workspace.value
  }

  lemma JoinOfTwo(a: string, b: string, sep: char)
    ensures Join([a, b], sep) == a + [sep] + b
  {
    assert [a, b][1..] == [b];
  }

  lemma JoinOfThree(a: string, b: string, c: string, sep: char)
    ensures Join([a, b, c], sep) == a + [sep] + b + [sep] + c
  {
    assert [a, b, c][1..] == [b, c];
    JoinOfTwo(b, c, sep);
  }

  /** Parsing the printed form gives the hint back exactly when its fields respect the separators. */
  lemma ParseOfPrint(h: ScopeHint)
    ensures Parse(Print(h)) == Ok(h) <==> IsPrintable(h)
    ensures h.project == None && h.workspace == None ==>
              Print(h) == h.tenant.org + ":" + h.tenant.bu + "/" + "None" + "/" + "None"
  {
    if IsPrintable(h) {
      var tenant := [h.tenant.org, h.tenant.bu];
      var parts := [h.tenant.OrgBu(), h.project.value, h.workspace.value];
      JoinOfTwo(h.tenant.org, h.tenant.bu, ':');
      JoinOfThree(parts[0], parts[1], parts[2], '/');
      SplitOfJoin(tenant, ':');
      SplitOfJoin(parts, '/');
    }
    ParsedIsPrintable(Print(h));
  }

  lemma ParsedIsPrintable(value: string)
    ensures Parse(value).Ok? ==> IsPrintable(Parse(value).value)
  {
    if Parse(value).Ok? {
      var parts := Split(value, '/');
      var tenant := Split(parts[0], ':');
      JoinOfSplit(parts[0], ':');
      JoinOfTwo(tenant[0], tenant[1], ':');
      assert tenant == [tenant[0], tenant[1]];
      assert parts[0] == tenant[0] + ":" + tenant[1];
      assert forall i :: 0 <= i < |tenant[0]| ==> parts[0][i] == tenant[0][i];
      assert forall i :: 0 <= i < |tenant[1]| ==> parts[0][|tenant[0]| + 1 + i] == tenant[1][i];
      assert parts[1] in parts && parts[2] in parts && tenant[0] in tenant && tenant[1] in tenant;
    }
  }

  /** Every accepted text is the print of what it parses to; so only prints of printable hints are accepted. */
  lemma PrintOfParse(value: string)
    ensures Parse(value).Ok? ==> Print(Parse(value).value) == value
    ensures Parse(value).Ok? <==> exists h :: IsPrintable(h) && Print(h) == value
  {
    if Parse(value).Ok? {
      var parts := Split(value, '/');
      var tenant := Split(parts[0], ':');
      JoinOfSplit(value, '/');
      JoinOfSplit(parts[0], ':');
      assert tenant == [tenant[0], tenant[1]];
      assert parts == [parts[0], parts[1], parts[2]];
      JoinOfTwo(tenant[0], tenant[1], ':');
      JoinOfThree(parts[0], parts[1], parts[2], '/');
      ParsedIsPrintable(value);
    }
    if h :| IsPrintable(h) && Print(h) == value {
      ParseOfPrint(h);
    }
  }
}
