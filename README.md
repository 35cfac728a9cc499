# Team projects and tasks: plan gate, policies and invitation lifecycle

This Dafny project models the decision rules and store updates of a Laravel
application in which organizations manage tasks and projects, invite
members, and subscribe to a plan.

- **Plans** (`organizations.dfy`). An organization's plan is free, pro or
  ultimate, chosen from its subscription's Stripe price. The plan sets a
  nullable task limit, which gates task creation, and a projects flag.
  Cashier's answer and the `config(...)` tables are parameters (`Billing`, `Config`).
- **Policies** (`task_policy.dfy`, `project_policy.dfy`). Every policy method
  is specified against one reference table, `Authorization.Decide`: the
  permission the method checks, the same-organization check for methods
  given a row, and the plan check for project viewAny, view and create.
  Which role holds which permission is a parameter (`Permissions.Grants`).
  The facts the feature tests fix about the seeded roles are a predicate
  (`Permissions.SeededAsTested`).
- **Tables** (`database.dfy`). All tables live in one object, `Database.Db`,
  whose methods insert, rewrite and delete rows in place. Its invariant
  holds the schema's keys: ids, the unique users.email, and the invitations
  table's unique token and unique (organization_id, email) pair.
  Tasks and projects are soft-deleted. Route-model binding and every query
  skip trashed rows.
- **Controllers and form requests** (`task_controller.dfy`,
  `project_controller.dfy`, `project_requests.dfy`, `user_controller.dfy`,
  `invitation_rules.dfy`). Each request is modelled as Laravel runs it:
  route-model binding (404), then authorization (403), then validation (422),
  then the controller body. Listings are specified as "exactly these rows,
  each as often as in the table, in this order" (`Sorting.IsListing`).
- **Livewire components and registration** (`invite_form.dfy`,
  `accept_invitation.dfy`, `create_new_user.dfy`). A component's public
  properties are the fields of a class. Accepting an invitation creates the
  user, gives it the invitation's role and stamps `accepted_at`. After that,
  the invitation cannot be mounted again, and its email is taken.
- **Task model, notification and migration** (`task_model.dfy`,
  `task_assigned.dfy`, `role_migration.dfy`). These cover mass assignment, what
  the activity log records for each event, soft delete and restore, the
  notification's channels and payload, and the `is_admin` ↔ role data migration.
  The migration's loops are methods with loop invariants.

Both project form requests declare the same rules
(`app/Http/Requests/StoreProjectRequest.php:24-25`,
`app/Http/Requests/UpdateProjectRequest.php:21-22`), so one function,
`ProjectRequests.Errors`, serves both. The invitation form component
declares the invitation request's rules a second time. `InviteForm.Rules`
reads them on the form's string properties, and
`InviteForm.FormMatchesRequest` proves that the two readings refuse the same
fields.

## Model

| member | source | states |
|---|---|---|
| Organizations.CurrentPlan | app/Models/Organization.php:75-91 | free without an active subscription; pro exactly when the price is identical to a configured pro price; ultimate exactly when it is not a pro price but is an ultimate price; free otherwise |
| Organizations.PlanFollowsPrice | app/Models/Organization.php:81-87 | with all four prices configured and the ultimate ones distinct from the pro ones, an ultimate price gives ultimate, no price gives free, and free is exactly the case of an unknown price |
| Organizations.TasksCount | app/Models/Organization.php:93-96 | the count equals the length of any listing of the organization's untrashed tasks |
| Organizations.CanCreateTask | app/Models/Organization.php:110-119 | always true with a null limit; otherwise true exactly when the count is below the limit |
| Organizations.MoreTasksNeverUnblock | app/Models/Organization.php:110-119 | if creation is allowed with more tasks it is allowed with fewer |
| Organizations.FreePlanQuota | app/Models/Organization.php:103-119 | on the free plan as the subscription tests configure it, the limit is 10, an organization with no tasks may create one, and at exactly 10 it may not |
| Organizations.CanAccessProjects | app/Models/Organization.php:121-126 | true exactly when the plan is configured and its projects flag is true; a missing flag means false |
| Organizations.FreePlanDeniesProjects | app/Models/Organization.php:121-126 | a free organization is denied projects under the tested configuration |
| Authorization.DeniedWithoutPermission | app/Policies/TaskPolicy.php:13-69 | without the permission a method checks, every decision is a denial |
| Authorization.DeniedAcrossOrganizations | app/Policies/ProjectPolicy.php:22-72 | a row of another organization is denied for every method that takes a row, whatever the permissions and plan |
| Authorization.TaskDecisionsIgnorePlan | app/Policies/TaskPolicy.php:13-69 | no task decision changes with the plan's projects flag |
| Authorization.ProjectManagementIgnoresPlan | app/Policies/ProjectPolicy.php:41-72 | project update, delete, restore and forceDelete do not change with the plan |
| Authorization.DowngradeOnlyRevokes | app/Policies/ProjectPolicy.php:13-36 | whatever is allowed without project access is also allowed with it |
| Authorization.RestoreAndForceDeleteAsDelete | app/Policies/TaskPolicy.php:47-69 | restore and forceDelete decide exactly as delete does, for tasks and projects |
| TaskPolicy.ViewAny | app/Policies/TaskPolicy.php:13-16 | equals the reference decision: tasks.viewAny, no organization check, for either plan |
| TaskPolicy.View | app/Policies/TaskPolicy.php:21-25 | equals the reference decision: tasks.view and the task in the user's organization |
| TaskPolicy.Create | app/Policies/TaskPolicy.php:30-33 | equals the reference decision: tasks.create, no organization check |
| TaskPolicy.Update | app/Policies/TaskPolicy.php:38-42 | equals the reference decision: tasks.update and the same organization |
| TaskPolicy.Delete | app/Policies/TaskPolicy.php:47-51 | equals the reference decision: tasks.delete and the same organization |
| TaskPolicy.Restore | app/Policies/TaskPolicy.php:56-60 | equals the reference decision for restore, which checks tasks.delete |
| TaskPolicy.ForceDelete | app/Policies/TaskPolicy.php:65-69 | equals the reference decision for forceDelete, which checks tasks.delete |
| ProjectPolicy.ViewAny | app/Policies/ProjectPolicy.php:13-17 | equals the reference decision with the user's organization's project access |
| ProjectPolicy.View | app/Policies/ProjectPolicy.php:22-27 | equals the reference decision: projects.view, same organization, project access |
| ProjectPolicy.Create | app/Policies/ProjectPolicy.php:32-36 | equals the reference decision: projects.create and project access |
| ProjectPolicy.Update | app/Policies/ProjectPolicy.php:41-45 | equals the reference decision for either plan: projects.update and same organization |
| ProjectPolicy.Delete | app/Policies/ProjectPolicy.php:50-54 | equals the reference decision for either plan: projects.delete and same organization |
| ProjectPolicy.Restore | app/Policies/ProjectPolicy.php:59-63 | equals the reference decision for restore, which checks projects.delete |
| ProjectPolicy.ForceDelete | app/Policies/ProjectPolicy.php:68-72 | equals the reference decision for forceDelete, which checks projects.delete |
| ProjectPolicy.NoAccessNoAcquisition | app/Policies/ProjectPolicy.php:13-36 | without project access nobody may list, view or create projects |
| ProjectPolicy.SeededRoleDecisions | tests/Feature/ProjectTest.php:18-351 | under the seeding the project feature tests assert (Admin at lines 18-26, 155-167, 201-252 and 301-317; Viewer and User at 95-137, 254-273, 319-334 and 336-351), with project access and a same-organization project: a Viewer may list and view but not create, update or delete; a User may create but not delete; an Admin may do all five |
| RoleEnum.CasesEnumerateRoles | app/Enums/RoleEnum.php:7-9 | exactly three cases, pairwise distinct, and every role is one of them |
| RoleEnum.ValuesAreDistinct | app/Enums/RoleEnum.php:7-9 | the backing values are 'admin', 'user', 'viewer' and tell the cases apart |
| RoleEnum.TryFrom | app/Enums/RoleEnum.php:7-9 | parsing yields a case exactly when the string is that case's backing value |
| RoleEnum.TryFromValue | app/Enums/RoleEnum.php:7-9 | parsing a case's backing value gives the case back |
| RoleEnum.IsAdminOnlyForAdmin | app/Enums/RoleEnum.php:11-14 | isAdmin holds exactly for Admin |
| RoleEnum.LabelsAreDistinct | app/Enums/RoleEnum.php:16-23 | the labels are Administrator, User and Viewer, and no two cases share one |
| ActivityLog.Window | app/Http/Controllers/TaskController.php:38-42 | the subject's entries from the log, each at most as often as logged, newest first; exactly ten of them, or all when there are fewer; no omitted entry about the subject is newer than a kept one |
| ActivityLog.NewEntryShown | tests/Feature/ActivityLogTest.php:122-166 | an entry appended about a row, newer than every earlier entry about that row, is in that row's window on its show page |
| TaskController.Index | app/Http/Controllers/TaskController.php:17-29 | 403 exactly when viewAny is denied; otherwise the organization's untrashed tasks, each once, newest first |
| TaskController.IndexShowsOwnOrganization | app/Http/Controllers/TaskController.php:21-24 | a task is listed exactly when it is in the table, in the actor's organization and not trashed |
| TaskController.Show | app/Http/Controllers/TaskController.php:34-48 | 404 for a missing or trashed task; 403 exactly when view is denied; otherwise the task and its activity window |
| TaskController.CreateForm | app/Http/Controllers/TaskController.php:53-58 | the form is shown exactly when create is allowed, 403 otherwise |
| TaskController.Edit | app/Http/Controllers/TaskController.php:90-97 | 404 for a missing task; the task exactly when update is allowed, 403 otherwise |
| TaskController.CountGrowsByOne | app/Models/Organization.php:93-96 | adding one untrashed task of the organization raises its count by exactly one |
| TaskController.Store | app/Http/Controllers/TaskController.php:63-85 | over the quota: an error carrying the plan's limit and no change at all; otherwise one task with the actor as creator, the actor's organization, no assignee and the given description, plus its 'created' log entry; the count rises by one and a bounded plan never ends over its limit |
| TaskController.Update | app/Http/Controllers/TaskController.php:102-109 | 404 for a missing task; otherwise the patch is written, and an 'updated' entry with exactly the changed attributes is logged only if something changed |
| TaskController.Destroy | app/Http/Controllers/TaskController.php:114-123 | 404 for a missing task; 403 without delete, with nothing changed; otherwise the task is soft-deleted and 'deleted' is logged |
| TaskController.DeletedTaskNotFound | app/Http/Controllers/TaskController.php:116-118 | after a soft delete the task's id no longer resolves |
| TaskModel.LoggedAreFillable | app/Models/Task.php:22-28 | the five logged attributes are exactly the fillable columns, one attribute per column |
| TaskModel.Fill | app/Models/Task.php:22-28 | mass assignment keeps exactly the fillable keys of the input, with their values |
| TaskModel.FillIdempotent | app/Models/Task.php:22-28 | filling twice equals filling once; id, deleted_at and created_at never pass |
| TaskModel.Columns | app/Models/Task.php:54 | an attribute's column name is recorded exactly when the attribute is in the set |
| TaskModel.Dirty | app/Models/Task.php:54-55 | an attribute is dirty exactly when its value differs between the two versions |
| TaskModel.LoggedProperties | app/Models/Task.php:51-57 | an update records exactly the changed logged attributes; other events record all five |
| TaskModel.Description | app/Models/Task.php:56 | "Task has been " followed by the event's name |
| TaskModel.DescriptionsAreDistinct | app/Models/Task.php:56 | different events get different descriptions |
| TaskModel.Trash | app/Models/Task.php:15 | a deleted task is trashed with deleted_at set to the deletion time, and nothing else changes |
| TaskModel.Untrash | app/Models/Task.php:15 | a restored task is not trashed, and nothing else changes |
| TaskModel.RestoreUndoesDelete | app/Models/Task.php:15 | restore after delete gives the task back, and neither step changes a logged attribute |
| TaskModel.Apply | app/Models/Task.php:22-28 | each patched attribute takes the patch's value and each unpatched one keeps its own; the id, the creation time and the trashed state never change |
| TaskModel.ChangedPatchIsDirty | tests/Feature/ActivityLogTest.php:33-49 | a patched attribute whose value changes is dirty, so such an update is always logged |
| TaskModel.DirtyWithinPatch | app/Models/Task.php:54-55 | only patched attributes can become dirty; an empty patch changes nothing |
| TaskModel.Create | app/Models/Task.php:51-57 | the insert plus a 'created' entry with all five attributes |
| TaskModel.Delete | app/Models/Task.php:51-57 | the soft delete plus a 'deleted' entry with all five attributes |
| TaskModel.Restore | app/Models/Task.php:51-57 | clearing deleted_at plus a 'restored' entry with all five attributes |
| TaskModel.Update | app/Models/Task.php:51-57 | the patched row, and an 'updated' entry with the dirty attributes only when there are some |
| Database.Db.AddInvitation | database/migrations/2025_11_30_070209_create_invitations_table.php:22-26 | refused, with nothing changed, exactly when the token or the (organization, email) pair is already used; otherwise one pending invitation is appended |
| ProjectRequests.StoreAuthorize | app/Http/Requests/StoreProjectRequest.php:11-14 | equals the reference decision for project create with the actor's project access |
| ProjectRequests.UpdateAuthorize | app/Http/Requests/UpdateProjectRequest.php:10-13 | equals the reference decision for project update on the routed project, for either plan |
| ProjectRequests.Errors | app/Http/Requests/StoreProjectRequest.php:19-26 | the name passes exactly when it is a non-blank string of at most 255 characters; the description passes exactly when it is missing, null or a string |
| ProjectRequests.NameLengthBoundary | app/Http/Requests/UpdateProjectRequest.php:21 | an empty name fails, a 255-character name passes, and 256 characters fail |
| ProjectController.Index | app/Http/Controllers/ProjectController.php:17-29 | 403 exactly when viewAny is denied; otherwise the organization's untrashed projects, each once, newest first |
| ProjectController.IndexShowsOwnOrganization | app/Http/Controllers/ProjectController.php:21-24 | a project is listed exactly when it is in the table, in the actor's organization and not trashed |
| ProjectController.CreateForm | app/Http/Controllers/ProjectController.php:34-39 | the form is shown exactly when create is allowed |
| ProjectController.Description | tests/Feature/ActivityLogTest.php:118-119 | "Project has been " followed by the event's name |
| ProjectController.DescriptionsAreDistinct | tests/Feature/ActivityLogTest.php:165 | different events get different project descriptions |
| ProjectController.Changed | app/Http/Controllers/ProjectController.php:96 | a column is reported exactly when its value differs between the two versions of the row |
| ProjectController.Store | app/Http/Controllers/ProjectController.php:44-58 | 403 without create and 422 on invalid input, both with nothing changed; otherwise exactly one project with the actor as creator, the actor's organization and the description defaulting to null, plus its 'created' entry caused by the actor; no limit is consulted |
| ProjectController.Show | app/Http/Controllers/ProjectController.php:63-77 | 404 for a missing project; 403 exactly when view is denied; otherwise the project and its activity window |
| ProjectController.Edit | app/Http/Controllers/ProjectController.php:82-89 | 404 for a missing project; the project exactly when update is allowed |
| ProjectController.Revised | app/Http/Controllers/ProjectController.php:96 | an update sets the name, keeps a description the request did not send, and touches nothing else |
| ProjectController.Update | app/Http/Controllers/ProjectController.php:94-101 | 404, 403 without update, 422 on invalid input, each with nothing changed; otherwise only that project is rewritten, and an 'updated' entry with the changed logged columns is written exactly when some column changed |
| ProjectController.UnchangedUpdateNotLogged | app/Http/Controllers/ProjectController.php:96 | resending the project's own name with no description changes nothing, so no entry is written |
| ProjectController.Destroy | app/Http/Controllers/ProjectController.php:106-115 | 404, 403 without delete with nothing changed; otherwise the project is soft-deleted and a 'deleted' entry caused by the actor is written |
| InvitationRules.Authorize | app/Http/Requests/StoreInvitationRequest.php:13-16 | false without a user; otherwise whether the user holds users.create |
| InvitationRules.Errors | app/Http/Requests/StoreInvitationRequest.php:21-35 | name: a non-blank string of at most 255; email: a non-blank lowercase string of at most 255 in email form, used by no user in any organization and by no invitation of the organization, accepted or not; role: one of 'admin', 'user', 'viewer' |
| InvitationRules.ValuesEnumerate | app/Http/Requests/StoreInvitationRequest.php:34 | the enum rule accepts exactly the three backing values |
| InvitationRules.ValidatedRole | app/Http/Controllers/UserController.php:66 | the role stored is the case whose backing value is the validated string |
| InvitationRules.AcceptedInvitationStillBlocks | app/Http/Requests/StoreInvitationRequest.php:32 | an email on an accepted invitation of the organization is still refused |
| InvitationRules.OtherOrganizationsInvitationsDoNotBlock | app/Http/Requests/StoreInvitationRequest.php:32 | an email invited only by other organizations is accepted |
| InvitationRules.ValidPassesUniqueIndex | database/migrations/2025_11_30_070209_create_invitations_table.php:26 | a valid invitation never collides with the (organization_id, email) unique index |
| UserController.Index | app/Http/Controllers/UserController.php:19-41 | 403 exactly without users.viewAny; otherwise the other users of the organization by name, and its pending invitations newest first |
| UserController.IndexExcludes | app/Http/Controllers/UserController.php:25-35 | the actor, other organizations' users and accepted invitations are never listed, and every other matching row is |
| UserController.Store | app/Http/Controllers/UserController.php:58-76 | 403 and 422 change nothing; a valid request inserts one pending invitation in the actor's organization with the validated name, email and role and the token, or is refused only for a used token |
| UserController.DestroyGuard | app/Http/Controllers/UserController.php:85-87 | passes exactly with users.delete, a target other than the actor, and a target in the actor's organization |
| UserController.NoSelfRemoval | app/Http/Controllers/UserController.php:86 | nobody can remove themselves |
| UserController.Destroy | app/Http/Controllers/UserController.php:81-94 | 404 for an unknown user; 403 from the guards with nothing changed; otherwise the row is removed and its id no longer resolves |
| InviteForm.Rules | app/Livewire/Users/InviteForm.php:32-47 | on the form's strings: name non-blank and at most 255; email as in the request rules; role one of the three values |
| InviteForm.FormMatchesRequest | app/Livewire/Users/InviteForm.php:32-47 | the form's own rules, read on its string properties, refuse exactly the fields the invitation request refuses, and its permission check is the request's |
| InviteForm.Form.constructor | app/Livewire/Users/InviteForm.php:16-20 | all three properties start empty |
| InviteForm.Form.Mount | app/Livewire/Users/InviteForm.php:22-27 | 403 without users.create; otherwise the role becomes 'user' and nothing else changes |
| InviteForm.Form.Submit | app/Livewire/Users/InviteForm.php:62-84 | re-checks users.create, then validates; any refusal changes nothing; otherwise one pending invitation with the form's values and the token |
| AcceptInvitation.MountCheck | app/Livewire/Auth/AcceptInvitation.php:24-35 | 404 for a missing invitation, an accepted one, or one whose email a user already has; otherwise the invitation |
| AcceptInvitation.Mount | app/Livewire/Auth/AcceptInvitation.php:24-35 | refuses exactly when the mount guards do; otherwise a new component bound to the invitation |
| AcceptInvitation.Component.constructor | app/Livewire/Auth/AcceptInvitation.php:18-22 | the component holds the invitation's id and both password fields start empty |
| AcceptInvitation.Component.Accept | app/Livewire/Auth/AcceptInvitation.php:37-61 | 404 for a vanished invitation and 422 for a missing, unconfirmed or weak password, both with nothing written; a taken email is refused; otherwise one user with the invitation's name, email, organization and role, the invitation stamped accepted, mount refusing it afterwards and its email taken |
| CreateNewUser.Errors | app/Actions/Fortify/CreateNewUser.php:21-31 | name: a non-blank string of at most 255; email: a non-blank string of at most 255 in email form, used by no user; the password passes the password rules |
| CreateNewUser.OrganizationName | app/Actions/Fortify/CreateNewUser.php:33-35 | the user's name followed by "'s Organization" |
| CreateNewUser.OrganizationNameInjective | app/Actions/Fortify/CreateNewUser.php:34 | different names give different organization names |
| CreateNewUser.Create | app/Actions/Fortify/CreateNewUser.php:19-47 | invalid input changes nothing; otherwise one new organization with a new id and no subscription, and one Admin user in it |
| TaskAssigned.Via | app/Notifications/TaskAssigned.php:20-29 | one or two distinct channels, 'database' first, 'mail' exactly when the recipient wants email |
| TaskAssigned.ToArray | app/Notifications/TaskAssigned.php:47-56 | the task's id, name and description, the page URL, and the name of the user who created the task; no payload when that user is missing |
| TaskAssigned.AssignerIsCreator | app/Notifications/TaskAssigned.php:53 | with unique user ids the assigner is the task's creator |
| RoleMigration.CreateRoles | database/migrations/2025_12_03_174410_migrate_is_admin_to_spatie_roles.php:18-20 | existing roles are kept, every case gets a role, only missing role names are added, and no duplicate appears |
| RoleMigration.UpRole | database/migrations/2025_12_03_174410_migrate_is_admin_to_spatie_roles.php:23 | admin exactly for a true flag, and never viewer |
| RoleMigration.UpUsers | database/migrations/2025_12_03_174410_migrate_is_admin_to_spatie_roles.php:22-25 | every user gets the role its flag implies |
| RoleMigration.UpInvitations | database/migrations/2025_12_03_174410_migrate_is_admin_to_spatie_roles.php:27-32 | every invitation's role column holds the value its flag implies |
| RoleMigration.DownIsAdmin | database/migrations/2025_12_03_174410_migrate_is_admin_to_spatie_roles.php:53 | the flag is true exactly for an admin |
| RoleMigration.DownUsers | database/migrations/2025_12_03_174410_migrate_is_admin_to_spatie_roles.php:48-55 | every user's flag becomes whether it has the admin role |
| RoleMigration.DownInvitationIsAdmin | database/migrations/2025_12_03_174410_migrate_is_admin_to_spatie_roles.php:61-62 | true exactly for the value 'admin' |
| RoleMigration.DownInvitations | database/migrations/2025_12_03_174410_migrate_is_admin_to_spatie_roles.php:57-62 | every invitation's flag becomes whether its role is 'admin' |
| RoleMigration.DropRoles | database/migrations/2025_12_03_174410_migrate_is_admin_to_spatie_roles.php:68-70 | the rows named after a case are gone and all others remain |
| RoleMigration.FlagsRoundTrip | database/migrations/2025_12_03_174410_migrate_is_admin_to_spatie_roles.php:23 | down after up gives every user its flag back |
| RoleMigration.InvitationFlagsRoundTrip | database/migrations/2025_12_03_174410_migrate_is_admin_to_spatie_roles.php:31-32 | down after up gives every invitation its flag back |
| RoleMigration.RolesAfterDownAndUp | database/migrations/2025_12_03_174410_migrate_is_admin_to_spatie_roles.php:53 | up after down keeps admin and user but turns viewer into user |
| RoleMigration.RolesTableRoundTrip | database/migrations/2025_12_03_174410_migrate_is_admin_to_spatie_roles.php:68-70 | down after up restores a roles table that held no role named after a case |

## Left out

- Blade views, Livewire rendering, redirects and flash messages: presentation only. A result is `Ok` or the failure that decides the response. Translation through `__()` is taken as the identity, which holds while the application ships no translation file for these strings: `TaskModel.Description` and `ProjectController.Description` give the untranslated text.
- Routes and route middleware are framework wiring. The task, project and user controllers and the invite form run behind `auth`, so they always have an actor. Accepting an invitation runs under `guest` and `signed` (routes/web.php:16-23), and registration is open to guests, so neither takes an actor. `InvitationRules.Authorize` also covers a request without a user.
- An `Input` received by a controller or by registration is the value after Laravel's global `TrimStrings` and `ConvertEmptyStringsToNull` middleware: surrounding whitespace is already gone and an empty string has become `Null`. A Livewire component's properties are taken as the component holds them.
- Cashier and the `config(...)` plan tables are parameters (`Billing`, `Config`): foreign code and configuration.
- The permission seeder and Spatie's permission storage are not part of this model. Which role holds which permission is the parameter `Grants`, and it is constrained only where the tests pin it (`SeededAsTested`).
- The framework's `email` format rule, `Password::defaults()` and Fortify's password rules are parameters (`isEmail`, `strong`, `passwordOk`): library validators.
- Sending mail is I/O and not modelled: the invitation notification from `UserController::store` and `InviteForm::submit`, `TaskAssigned::toMail`, the `Registered` event, `Auth::login` and the session.
- Tokens, clocks and URLs are parameters (`token`, `now`, `showUrl`). A token equal to an existing one is refused, as the unique index refuses it.
- The race between counting tasks and inserting one concerns concurrency. Only the sequential check is modelled.
- `StoreTaskRequest` and `UpdateTaskRequest` are not part of this model. Task store and update therefore take already-validated values. Neither `StoreTaskRequest::authorize` before task store nor the authorization of task update is modelled.
- TaskController.Store: always stores the task with no assignee, as app/Http/Controllers/TaskController.php:75-80 passes no `assigned_to_user_id`. The feature tests (tests/Feature/TaskTest.php:286-304, tests/Feature/NotificationTest.php:16-40) expect a posted assignee to be stored and notified. Whether `StoreTaskRequest` validates that field is not part of this model, so the difference is recorded here rather than corrected.
- TaskController.Store: does not claim that the quota gate runs before input validation. Laravel validates a form request when it resolves it, before the controller body runs, so `StoreTaskRequest`'s rules come first.
- The reassignment notification rule is not modelled: its implementation is not part of this model.
- The `Project` model is not part of this model. Projects are taken to be soft-deleting like tasks (tests/Feature/ActivityLogTest.php:187-204). Project create, update and delete are logged as the tests show (tests/Feature/ActivityLogTest.php:51-68, 139-166, 187-204). Which columns the project log records is unknown, so it is the parameter `logged`. An update is taken to record only the changed logged columns and to write nothing when nothing changed, as the task model does.
- UserController.Destroy: its frame keeps the tasks, projects and invitations tables unchanged. What the database does with rows that reference the removed user is not part of this model, because the foreign keys' on-delete rules are not.
- TaskModel.Restore: the `updated_at` timestamp is not modelled, and a restore is taken to log only its 'restored' entry. The activity-log library skips the 'updated' entry on a restore only when `deleted_at` is the only changed column. `restore()` saves the row and so also refreshes `updated_at`, so a restore in a later second than its delete also writes an 'updated' entry with no properties before the 'restored' one (app/Models/Task.php:51-57 does not turn off empty logs).
- The activity log records the set of attribute names per entry, not their old and new values. Eager-loading the causer is not modelled.
- Passwords are validated but not stored: hashing is the framework's.
- Text handling: `Lowercase` checks ASCII letters only, `Blank` strips PHP trim's six characters, and uniqueness compares strings exactly. Database collation is ignored.
- The invitations table's name column is nullable. Every path that writes it supplies a name, so it is a plain string here.
- The migration's schema changes (adding and dropping columns, guard names) are DDL. Each user holds exactly one role, which is what `hasRole('admin')` asks about.
- `projectsCount` is never consulted by any operation modelled here.
- Ids and counts are unbounded integers: the application does not depend on their width.
