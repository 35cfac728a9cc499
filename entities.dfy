/**
 * The rows of the application's tables, as the core reads and writes them.
 * Timestamps are plain numbers supplied by the caller (the clock is outside
 * the model); a nullable column is an `Option`.
 */
module Entities {
  import opened Wrappers
  import opened RoleEnum

  /** What Cashier reports for the organization's 'default' subscription. */
  datatype Billing = Billing(subscribed: bool, stripePrice: Option<string>)

  datatype OrganizationRow = OrganizationRow(id: nat, name: string, billing: Billing)

  /** A user belongs to one organization and holds one role. */
  datatype UserRow = UserRow(
    id: nat,
    name: string,
    email: string,
    organizationId: nat,
    role: Role,
    emailNotifications: bool)

  datatype TaskRow = TaskRow(
    id: nat,
    name: string,
    description: Option<string>,
    userId: nat,
    organizationId: nat,
    assignedTo: Option<nat>,
    createdAt: nat,
    deletedAt: Option<nat>)
  {
    /** SoftDeletes: a row with `deleted_at` set is trashed. */
    predicate Trashed() { deletedAt.Some? }
  }

  datatype ProjectRow = ProjectRow(
    id: nat,
    name: string,
    description: Option<string>,
    userId: nat,
    organizationId: nat,
    createdAt: nat,
    deletedAt: Option<nat>)
  {
    predicate Trashed() { deletedAt.Some? }
  }

  datatype InvitationRow = InvitationRow(
    id: nat,
    organizationId: nat,
    name: string,
    email: string,
    role: Role,
    token: string,
    acceptedAt: Option<nat>,
    createdAt: nat)
  {
    predicate Pending() { acceptedAt.None? }
  }

  /** Model events the activity log records. */
  datatype Event = Created | Updated | Deleted | Restored

  /** The task attributes the activity log may record. */
  datatype TaskAttribute = NameAttr | DescriptionAttr | UserIdAttr | OrganizationIdAttr | AssignedToAttr

  datatype Subject = TaskSubject(taskId: nat) | ProjectSubject(projectId: nat)

  /** One activity-log entry: what happened to which row, by whom, and the names of the attributes it records. */
  datatype Activity = Activity(
    subject: Subject,
    event: Event,
    description: string,
    properties: set<string>,
    causerId: Option<nat>,
    createdAt: nat)

  /** `orderByDesc('created_at')` for each kind of row. */
  predicate TaskNewerOrSame(a: TaskRow, b: TaskRow) { a.createdAt >= b.createdAt }
  predicate ProjectNewerOrSame(a: ProjectRow, b: ProjectRow) { a.createdAt >= b.createdAt }
  predicate InvitationNewerOrSame(a: InvitationRow, b: InvitationRow) { a.createdAt >= b.createdAt }
  predicate ActivityNewerOrSame(a: Activity, b: Activity) { a.createdAt >= b.createdAt }
}
