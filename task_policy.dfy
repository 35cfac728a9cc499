/**
 * `App\Policies\TaskPolicy`. Each method is the decision table's entry for
 * tasks; none of them looks at the organization's plan, which the contracts
 * state by holding for either value of the plan flag.
 */
module TaskPolicy {
  import opened Wrappers
  import opened Entities
  import P = Permissions
  import A = Authorization

  function ViewAny(grants: P.Grants, user: UserRow): (ok: bool)
    ensures forall enabled: bool :: ok == A.Decide(grants, user, P.Tasks, A.ViewAny, None, enabled)
  {
    P.HasPermissionTo(grants, user.role, P.Permission(P.Tasks, P.ViewAny))
  }

  function View(grants: P.Grants, user: UserRow, task: TaskRow): (ok: bool)
    ensures forall enabled: bool :: ok == A.Decide(grants, user, P.Tasks, A.View, Some(task.organizationId), enabled)
  {
    P.HasPermissionTo(grants, user.role, P.Permission(P.Tasks, P.View))
      && task.organizationId == user.organizationId
  }

  function Create(grants: P.Grants, user: UserRow): (ok: bool)
    ensures forall enabled: bool :: ok == A.Decide(grants, user, P.Tasks, A.Create, None, enabled)
  {
    P.HasPermissionTo(grants, user.role, P.Permission(P.Tasks, P.Create))
  }

  function Update(grants: P.Grants, user: UserRow, task: TaskRow): (ok: bool)
    ensures forall enabled: bool :: ok == A.Decide(grants, user, P.Tasks, A.Update, Some(task.organizationId), enabled)
  {
    P.HasPermissionTo(grants, user.role, P.Permission(P.Tasks, P.Update))
      && task.organizationId == user.organizationId
  }

  function Delete(grants: P.Grants, user: UserRow, task: TaskRow): (ok: bool)
    ensures forall enabled: bool :: ok == A.Decide(grants, user, P.Tasks, A.Delete, Some(task.organizationId), enabled)
  {
    P.HasPermissionTo(grants, user.role, P.Permission(P.Tasks, P.Delete))
      && task.organizationId == user.organizationId
  }

  function Restore(grants: P.Grants, user: UserRow, task: TaskRow): (ok: bool)
    ensures forall enabled: bool :: ok == A.Decide(grants, user, P.Tasks, A.Restore, Some(task.organizationId), enabled)
  {
    P.HasPermissionTo(grants, user.role, P.Permission(P.Tasks, P.Delete))
      && task.organizationId == user.organizationId
  }

  function ForceDelete(grants: P.Grants, user: UserRow, task: TaskRow): (ok: bool)
    ensures forall enabled: bool :: ok == A.Decide(grants, user, P.Tasks, A.ForceDelete, Some(task.organizationId), enabled)
  {
    P.HasPermissionTo(grants, user.role, P.Permission(P.Tasks, P.Delete))
      && task.organizationId == user.organizationId
  }
}
