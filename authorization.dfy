/**
 * The decision table both policies follow: each policy method checks one
 * permission; the methods that take a row also require the row to belong to
 * the user's organization; project viewAny, view and create also require the
 * organization's plan to enable projects. A denial never says which of these
 * failed.
 */
module Authorization {
  import opened Wrappers
  import opened Entities
  import P = Permissions

  /** The policy methods. */
  datatype Action = ViewAny | View | Create | Update | Delete | Restore | ForceDelete

  /** The permission a policy method checks: restore and forceDelete reuse `*.delete`. */
  function Required(resource: P.Resource, action: Action): P.Permission {
    P.Permission(resource,
      match action
      case ViewAny => P.ViewAny
      case View => P.View
      case Create => P.Create
      case Update => P.Update
      case Delete => P.Delete
      case Restore => P.Delete
      case ForceDelete => P.Delete)
  }

  /** The methods that also ask whether the plan enables the feature. */
  predicate PlanGated(resource: P.Resource, action: Action) {
    resource == P.Projects && (action == ViewAny || action == View || action == Create)
  }

  /**
   * The reference decision. `rowOrg` is the row's organization_id for the
   * methods that take a row; `projectsEnabled` is the user's organization's
   * canAccessProjects().
   */
  predicate Decide(grants: P.Grants, user: UserRow, resource: P.Resource, action: Action,
                   rowOrg: Option<nat>, projectsEnabled: bool)
  {
    && P.HasPermissionTo(grants, user.role, Required(resource, action))
    && (rowOrg.Some? ==> rowOrg.value == user.organizationId)
    && (PlanGated(resource, action) ==> projectsEnabled)
  }

  /** Without the permission a method checks, every decision is a denial. */
  lemma DeniedWithoutPermission(grants: P.Grants, user: UserRow, resource: P.Resource, action: Action,
                                rowOrg: Option<nat>, projectsEnabled: bool)
    requires !P.HasPermissionTo(grants, user.role, Required(resource, action))
    ensures !Decide(grants, user, resource, action, rowOrg, projectsEnabled)
  {
  }

  /** A row of another organization is denied whatever the user's permissions and plan. */
  lemma DeniedAcrossOrganizations(grants: P.Grants, user: UserRow, resource: P.Resource, action: Action,
                                  rowOrg: nat, projectsEnabled: bool)
    requires rowOrg != user.organizationId
    ensures !Decide(grants, user, resource, action, Some(rowOrg), projectsEnabled)
  {
  }

  /** No task decision depends on the plan. */
  lemma TaskDecisionsIgnorePlan(grants: P.Grants, user: UserRow, action: Action, rowOrg: Option<nat>)
    ensures Decide(grants, user, P.Tasks, action, rowOrg, false) == Decide(grants, user, P.Tasks, action, rowOrg, true)
  {
  }

  /** Managing existing projects (update, delete, restore, forceDelete) does not depend on the plan. */
  lemma ProjectManagementIgnoresPlan(grants: P.Grants, user: UserRow, action: Action, rowOrg: Option<nat>)
    requires action in {Update, Delete, Restore, ForceDelete}
    ensures Decide(grants, user, P.Projects, action, rowOrg, false) == Decide(grants, user, P.Projects, action, rowOrg, true)
  {
  }

  /** A plan downgrade only takes permissions away: what is allowed without project access is allowed with it. */
  lemma DowngradeOnlyRevokes(grants: P.Grants, user: UserRow, resource: P.Resource, action: Action, rowOrg: Option<nat>)
    ensures Decide(grants, user, resource, action, rowOrg, false) ==> Decide(grants, user, resource, action, rowOrg, true)
  {
  }

  /** restore and forceDelete decide exactly as delete does. */
  lemma RestoreAndForceDeleteAsDelete(grants: P.Grants, user: UserRow, resource: P.Resource,
                                      rowOrg: Option<nat>, projectsEnabled: bool)
    ensures Decide(grants, user, resource, Restore, rowOrg, projectsEnabled) == Decide(grants, user, resource, Delete, rowOrg, projectsEnabled)
    ensures Decide(grants, user, resource, ForceDelete, rowOrg, projectsEnabled) == Decide(grants, user, resource, Delete, rowOrg, projectsEnabled)
  {
  }
}
