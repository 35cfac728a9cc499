/**
 * Spatie permissions: a role holds a set of named permissions such as
 * `tasks.view`. The seeder that assigns them is not part of this model, so the
 * assignment is a parameter, constrained only by what the feature tests assert.
 */
module Permissions {
  import opened RoleEnum

  datatype Resource = Tasks | Projects | Users
  datatype Ability = ViewAny | View | Create | Update | Delete
  datatype Permission = Permission(resource: Resource, ability: Ability)

  /** The role to permission-set assignment that `hasPermissionTo` consults. */
  type Grants = Role -> set<Permission>

  predicate HasPermissionTo(grants: Grants, role: Role, p: Permission) {
    p in grants(role)
  }

  function ResourceName(r: Resource): string {
    match r
    case Tasks => "tasks"
    case Projects => "projects"
    case Users => "users"
  }

  function AbilityName(a: Ability): string {
    match a
    case ViewAny => "viewAny"
    case View => "view"
    case Create => "create"
    case Update => "update"
    case Delete => "delete"
  }

  /** The permission's name as stored, for instance `projects.delete`. */
  function Name(p: Permission): string {
    ResourceName(p.resource) + "." + AbilityName(p.ability)
  }

  /**
   * What the project feature tests assert about the seeded roles: a Viewer may
   * list and view projects but not create, update or delete them; a User may
   * create but not delete them; an Admin may do all five.
   */
  predicate SeededAsTested(grants: Grants) {
    && Permission(Projects, ViewAny) in grants(Viewer)
    && Permission(Projects, View) in grants(Viewer)
    && Permission(Projects, Create) !in grants(Viewer)
    && Permission(Projects, Update) !in grants(Viewer)
    && Permission(Projects, Delete) !in grants(Viewer)
    && Permission(Projects, Create) in grants(User)
    && Permission(Projects, Delete) !in grants(User)
    && (forall a :: Permission(Projects, a) in grants(Admin))
  }
}
