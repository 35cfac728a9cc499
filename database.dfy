/**
 * The application's tables, held by one object that the operations update in
 * place. Rows keep insertion order; every insert draws its id from one counter.
 * `Valid` holds the keys the schema enforces: ids, the unique index on
 * users.email, and the invitations table's unique token and unique
 * (organization_id, email) pair.
 */
module Database {
  import opened Wrappers
  import opened Entities
  import opened Sorting

  /** Some user, in any organization, has this email. */
  predicate EmailTaken(users: seq<UserRow>, email: string) {
    exists i :: 0 <= i < |users| && users[i].email == email
  }

  /** Some invitation of the organization, accepted or not, has this email. */
  predicate InvitedInOrganization(invitations: seq<InvitationRow>, orgId: nat, email: string) {
    exists i :: 0 <= i < |invitations| && invitations[i].organizationId == orgId && invitations[i].email == email
  }

  predicate TokenUsed(invitations: seq<InvitationRow>, token: string) {
    exists i :: 0 <= i < |invitations| && invitations[i].token == token
  }

  /** No two rows share a key. */
  ghost predicate DistinctKeys<T>(rows: seq<T>, key: T -> nat) {
    forall i, j :: 0 <= i < j < |rows| ==> key(rows[i]) != key(rows[j])
  }

  /** Every key is below `bound` and no two rows share a key. */
  ghost predicate Keyed<T>(rows: seq<T>, key: T -> nat, bound: nat) {
    && (forall i :: 0 <= i < |rows| ==> key(rows[i]) < bound)
    && DistinctKeys(rows, key)
  }

  function UserId(u: UserRow): nat { u.id }
  function TaskId(t: TaskRow): nat { t.id }
  function ProjectId(p: ProjectRow): nat { p.id }
  function OrganizationId(o: OrganizationRow): nat { o.id }
  function InvitationId(v: InvitationRow): nat { v.id }

  ghost predicate UniqueEmails(users: seq<UserRow>) {
    forall i, j :: 0 <= i < j < |users| ==> users[i].email != users[j].email
  }

  ghost predicate UniqueInvitationKeys(invitations: seq<InvitationRow>) {
    forall i, j :: 0 <= i < j < |invitations| ==>
      && invitations[i].token != invitations[j].token
      && (invitations[i].organizationId != invitations[j].organizationId || invitations[i].email != invitations[j].email)
  }

  /** Route-model binding for tasks: the position of the untrashed task with this id. */
  function FindTask(tasks: seq<TaskRow>, id: nat): (r: Option<nat>)
    ensures r.Some? ==> r.value < |tasks| && tasks[r.value].id == id && !tasks[r.value].Trashed()
    ensures r.None? ==> forall i :: 0 <= i < |tasks| ==> tasks[i].id != id || tasks[i].Trashed()
  {
    FirstWhere(tasks, (t: TaskRow) => t.id == id && !t.Trashed())
  }

  /** Route-model binding for projects: the position of the untrashed project with this id. */
  function FindProject(projects: seq<ProjectRow>, id: nat): (r: Option<nat>)
    ensures r.Some? ==> r.value < |projects| && projects[r.value].id == id && !projects[r.value].Trashed()
    ensures r.None? ==> forall i :: 0 <= i < |projects| ==> projects[i].id != id || projects[i].Trashed()
  {
    FirstWhere(projects, (p: ProjectRow) => p.id == id && !p.Trashed())
  }

  /** Route-model binding for users. */
  function FindUser(users: seq<UserRow>, id: nat): (r: Option<nat>)
    ensures r.Some? ==> r.value < |users| && users[r.value].id == id
    ensures r.None? ==> forall i :: 0 <= i < |users| ==> users[i].id != id
  {
    FirstWhere(users, (u: UserRow) => u.id == id)
  }

  /** Route-model binding for invitations. */
  function FindInvitation(invitations: seq<InvitationRow>, id: nat): (r: Option<nat>)
    ensures r.Some? ==> r.value < |invitations| && invitations[r.value].id == id
    ensures r.None? ==> forall i :: 0 <= i < |invitations| ==> invitations[i].id != id
  {
    FirstWhere(invitations, (v: InvitationRow) => v.id == id)
  }

  datatype Table = OrganizationsTable | UsersTable | TasksTable | ProjectsTable | InvitationsTable | ActivityTable

  class Db {
    /** Whether a new user row gets email notifications switched on (the column default). */
    const emailNotificationsDefault: bool

    var organizations: seq<OrganizationRow>
    var users: seq<UserRow>
    var tasks: seq<TaskRow>
    var projects: seq<ProjectRow>
    var invitations: seq<InvitationRow>
    var activities: seq<Activity>
    var nextId: nat

    ghost predicate Valid()
      reads this
    {
      && Keyed(organizations, OrganizationId, nextId)
      && Keyed(users, UserId, nextId)
      && Keyed(tasks, TaskId, nextId)
      && Keyed(projects, ProjectId, nextId)
      && Keyed(invitations, InvitationId, nextId)
      && UniqueEmails(users)
      && UniqueInvitationKeys(invitations)
    }

    constructor(emailNotificationsDefault: bool)
      ensures Valid()
      ensures this.emailNotificationsDefault == emailNotificationsDefault
      ensures organizations == [] && users == [] && tasks == [] && projects == []
      ensures invitations == [] && activities == []
    {
      this.emailNotificationsDefault := emailNotificationsDefault;
      organizations := [];
      users := [];
      tasks := [];
      projects := [];
      invitations := [];
      activities := [];
      nextId := 1;
    }

    /** The tables outside `changed` are as they were. */
    twostate predicate KeepsExcept(changed: set<Table>)
      reads this
    {
      && (OrganizationsTable !in changed ==> organizations == old(organizations))
      && (UsersTable !in changed ==> users == old(users))
      && (TasksTable !in changed ==> tasks == old(tasks))
      && (ProjectsTable !in changed ==> projects == old(projects))
      && (InvitationsTable !in changed ==> invitations == old(invitations))
      && (ActivityTable !in changed ==> activities == old(activities))
    }

    method AddOrganization(name: string, billing: Billing) returns (id: nat)
      requires Valid()
      modifies this
      ensures Valid()
      ensures id == old(nextId) && nextId == id + 1
      ensures organizations == old(organizations) + [OrganizationRow(id, name, billing)]
      ensures KeepsExcept({OrganizationsTable})
    {
      id := nextId;
      organizations := organizations + [OrganizationRow(id, name, billing)];
      nextId := nextId + 1;
    }

    /** Inserts a user, or returns None when the unique index on users.email refuses the row. */
    method AddUser(name: string, email: string, organizationId: nat, role: RoleEnum.Role) returns (id: Option<nat>)
      requires Valid()
      modifies this
      ensures Valid()
      ensures id.None? <==> old(EmailTaken(users, email))
      ensures id.None? ==> unchanged(this)
      ensures id.Some? ==> id.value == old(nextId) && nextId == id.value + 1
      ensures id.Some? ==> users == old(users) + [UserRow(id.value, name, email, organizationId, role, emailNotificationsDefault)]
      ensures KeepsExcept({UsersTable})
    {
      if EmailTaken(users, email) {
        return None;
      }
      var row := UserRow(nextId, name, email, organizationId, role, emailNotificationsDefault);
      users := users + [row];
      id := Some(nextId);
      nextId := nextId + 1;
    }

    method AddTask(name: string, description: Option<string>, userId: nat, organizationId: nat, now: nat)
      returns (id: nat)
      requires Valid()
      modifies this
      ensures Valid()
      ensures id == old(nextId) && nextId == id + 1
      ensures tasks == old(tasks) + [TaskRow(id, name, description, userId, organizationId, None, now, None)]
      ensures KeepsExcept({TasksTable})
    {
      id := nextId;
      tasks := tasks + [TaskRow(id, name, description, userId, organizationId, None, now, None)];
      nextId := nextId + 1;
    }

    method AddProject(name: string, description: Option<string>, userId: nat, organizationId: nat, now: nat)
      returns (id: nat)
      requires Valid()
      modifies this
      ensures Valid()
      ensures id == old(nextId) && nextId == id + 1
      ensures projects == old(projects) + [ProjectRow(id, name, description, userId, organizationId, now, None)]
      ensures KeepsExcept({ProjectsTable})
    {
      id := nextId;
      projects := projects + [ProjectRow(id, name, description, userId, organizationId, now, None)];
      nextId := nextId + 1;
    }

    /**
     * Inserts a pending invitation, or returns None when one of the
     * invitations table's unique indexes refuses the row.
     */
    method AddInvitation(organizationId: nat, name: string, email: string, role: RoleEnum.Role, token: string, now: nat)
      returns (id: Option<nat>)
      requires Valid()
      modifies this
      ensures Valid()
      ensures id.None? <==> old(InvitedInOrganization(invitations, organizationId, email) || TokenUsed(invitations, token))
      ensures id.None? ==> unchanged(this)
      ensures id.Some? ==> id.value == old(nextId) && nextId == id.value + 1
      ensures id.Some? ==> invitations == old(invitations) + [InvitationRow(id.value, organizationId, name, email, role, token, None, now)]
      ensures KeepsExcept({InvitationsTable})
    {
      if InvitedInOrganization(invitations, organizationId, email) || TokenUsed(invitations, token) {
        return None;
      }
      invitations := invitations + [InvitationRow(nextId, organizationId, name, email, role, token, None, now)];
      id := Some(nextId);
      nextId := nextId + 1;
    }

    /** Rewrites the task at position `i`, keeping its id. */
    method SetTask(i: nat, row: TaskRow)
      requires Valid()
      requires i < |tasks| && row.id == tasks[i].id
      modifies this
      ensures Valid()
      ensures tasks == old(tasks)[i := row]
      ensures nextId == old(nextId)
      ensures KeepsExcept({TasksTable})
    {
      tasks := tasks[i := row];
    }

    /** Rewrites the project at position `i`, keeping its id. */
    method SetProject(i: nat, row: ProjectRow)
      requires Valid()
      requires i < |projects| && row.id == projects[i].id
      modifies this
      ensures Valid()
      ensures projects == old(projects)[i := row]
      ensures nextId == old(nextId)
      ensures KeepsExcept({ProjectsTable})
    {
      projects := projects[i := row];
    }

    /** Sets `accepted_at` on the invitation at position `i`. */
    method StampAccepted(i: nat, now: nat)
      requires Valid()
      requires i < |invitations|
      modifies this
      ensures Valid()
      ensures invitations == old(invitations)[i := old(invitations[i]).(acceptedAt := Some(now))]
      ensures nextId == old(nextId)
      ensures KeepsExcept({InvitationsTable})
    {
      invitations := invitations[i := invitations[i].(acceptedAt := Some(now))];
    }

    /** Removes the user at position `i` for good. */
    method RemoveUser(i: nat)
      requires Valid()
      requires i < |users|
      modifies this
      ensures Valid()
      ensures users == old(users[..i] + users[i + 1..])
      ensures nextId == old(nextId)
      ensures KeepsExcept({UsersTable})
    {
      users := users[..i] + users[i + 1..];
    }

    /** Appends an activity-log entry. */
    method Log(entry: Activity)
      requires Valid()
      modifies this
      ensures Valid()
      ensures activities == old(activities) + [entry]
      ensures nextId == old(nextId)
      ensures KeepsExcept({ActivityTable})
    {
      activities := activities + [entry];
    }
  }

  /** Removing a row leaves exactly the other rows, so a removed user is no longer found. */
  lemma RemovedUserGone(users: seq<UserRow>, i: nat)
    requires i < |users|
    requires DistinctKeys(users, UserId)
    ensures FindUser(users[..i] + users[i + 1..], users[i].id).None?
    ensures forall j :: 0 <= j < |users| && j != i ==> users[j] in users[..i] + users[i + 1..]
  {
    var rest := users[..i] + users[i + 1..];
    forall k | 0 <= k < |rest|
      ensures rest[k].id != users[i].id
    {
      if k < i {
        assert rest[k] == users[k];
      } else {
        assert rest[k] == users[k + 1];
      }
    }
    forall j | 0 <= j < |users| && j != i
      ensures users[j] in rest
    {
      if j < i {
        assert rest[j] == users[j];
      } else {
        assert rest[j - 1] == users[j];
      }
    }
  }
}
