/**
 * `App\Policies\ProjectPolicy`. viewAny, view and create also ask the user's
 * organization whether its plan enables projects; update, delete, restore and
 * forceDelete do not, so their contracts hold for either value of the flag.
 * `userOrg` is the user's organization (`$user->organization`).
 */
module ProjectPolicy {
  import opened Wrappers
  import opened Entities
  import opened Organizations
  import opened RoleEnum
  import P = Permissions
  import A = Authorization

  function ViewAny(grants: P.Grants, cfg: Config, user: UserRow, userOrg: OrganizationRow): (ok: bool)
    ensures ok == A.Decide(grants, user, P.Projects, A.ViewAny, None, CanAccessProjects(userOrg, cfg))
  {
    P.HasPermissionTo(grants, user.role, P.Permission(P.Projects, P.ViewAny))
      && CanAccessProjects(userOrg, cfg)
  }

  function View(grants: P.Grants, cfg: Config, user: UserRow, userOrg: OrganizationRow, project: ProjectRow): (ok: bool)
    ensures ok == A.Decide(grants, user, P.Projects, A.View, Some(project.organizationId), CanAccessProjects(userOrg, cfg))
  {
    P.HasPermissionTo(grants, user.role, P.Permission(P.Projects, P.View))
      && project.organizationId == user.organizationId
      && CanAccessProjects(userOrg, cfg)
  }

  function Create(grants: P.Grants, cfg: Config, user: UserRow, userOrg: OrganizationRow): (ok: bool)
    ensures ok == A.Decide(grants, user, P.Projects, A.Create, None, CanAccessProjects(userOrg, cfg))
  {
    P.HasPermissionTo(grants, user.role, P.Permission(P.Projects, P.Create))
      && CanAccessProjects(userOrg, cfg)
  }

  function Update(grants: P.Grants, user: UserRow, project: ProjectRow): (ok: bool)
    ensures forall enabled: bool :: ok == A.Decide(grants, user, P.Projects, A.Update, Some(project.organizationId), enabled)
  {
    P.HasPermissionTo(grants, user.role, P.Permission(P.Projects, P.Update))
      && project.organizationId == user.organizationId
  }

  function Delete(grants: P.Grants, user: UserRow, project: ProjectRow): (ok: bool)
    ensures forall enabled: bool :: ok == A.Decide(grants, user, P.Projects, A.Delete, Some(project.organizationId), enabled)
  {
    P.HasPermissionTo(grants, user.role, P.Permission(P.Projects, P.Delete))
      && project.organizationId == user.organizationId
  }

  function Restore(grants: P.Grants, user: UserRow, project: ProjectRow): (ok: bool)
    ensures forall enabled: bool :: ok == A.Decide(grants, user, P.Projects, A.Restore, Some(project.organizationId), enabled)
  {
    P.HasPermissionTo(grants, user.role, P.Permission(P.Projects, P.Delete))
      && project.organizationId == user.organizationId
  }

  function ForceDelete(grants: P.Grants, user: UserRow, project: ProjectRow): (ok: bool)
    ensures forall enabled: bool :: ok == A.Decide(grants, user, P.Projects, A.ForceDelete, Some(project.organizationId), enabled)
  {
    P.HasPermissionTo(grants, user.role, P.Permission(P.Projects, P.Delete))
      && project.organizationId == user.organizationId
  }

  /**
   * Under the seeded roles, in an organization whose plan enables projects
   * and for a project of that organization: a Viewer may list and view but
   * not create, update or delete; a User may create but not delete; an Admin
   * may do everything.
   */
  lemma SeededRoleDecisions(grants: P.Grants, cfg: Config, user: UserRow, userOrg: OrganizationRow, project: ProjectRow)
    requires P.SeededAsTested(grants)
    requires CanAccessProjects(userOrg, cfg)
    requires project.organizationId == user.organizationId
    ensures user.role == Viewer ==>
      && ViewAny(grants, cfg, user, userOrg) && View(grants, cfg, user, userOrg, project)
      && !Create(grants, cfg, user, userOrg) && !Update(grants, user, project) && !Delete(grants, user, project)
    ensures user.role == User ==> Create(grants, cfg, user, userOrg) && !Delete(grants, user, project)
    ensures user.role == Admin ==>
      && ViewAny(grants, cfg, user, userOrg) && View(grants, cfg, user, userOrg, project)
      && Create(grants, cfg, user, userOrg) && Update(grants, user, project) && Delete(grants, user, project)
  {
    if user.role == Admin {
      assert P.Permission(P.Projects, P.ViewAny) in grants(user.role);
      assert P.Permission(P.Projects, P.View) in grants(user.role);
      assert P.Permission(P.Projects, P.Create) in grants(user.role);
      assert P.Permission(P.Projects, P.Update) in grants(user.role);
      assert P.Permission(P.Projects, P.Delete) in grants(user.role);
    }
  }

  /** Without project access an organization's users can neither list, view nor create projects. */
  lemma NoAccessNoAcquisition(grants: P.Grants, cfg: Config, user: UserRow, userOrg: OrganizationRow, project: ProjectRow)
    requires !CanAccessProjects(userOrg, cfg)
    ensures !ViewAny(grants, cfg, user, userOrg)
    ensures !View(grants, cfg, user, userOrg, project)
    ensures !Create(grants, cfg, user, userOrg)
  {
  }
}
