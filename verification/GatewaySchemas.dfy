/** Records shared by intake, access control and the harness. */
module GatewaySchemas {
  import opened Wrappers

  datatype Intent = Provision | Inquiry | ComplianceCheck

  datatype Scope = Scope(org: string, bu: string, project: Option<string>, workspace: Option<string>)

  datatype Tenant = Tenant(org: string, bu: string) {
    function OrgBu(): string {
      org + ":" + bu
    }
  }

  datatype ScopeHint = ScopeHint(tenant: Tenant, project: Option<string>, workspace: Option<string>)
}
