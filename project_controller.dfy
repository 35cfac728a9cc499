/**
 * `App\Http\Controllers\ProjectController`. Route-model binding finds only
 * untrashed projects (404 otherwise); the policy or the form request decides
 * 403 before anything is read or written; store and update then validate.
 * `actorOrg` is the actor's organization, whose plan the policy consults.
 *
 * A project's create, update and delete each write an activity-log entry
 * "Project has been <event>", caused by the actor. Which project columns the
 * log records (`logOnly`) is the parameter `logged`; an update records the
 * logged columns it changed and writes nothing when it changes nothing, as
 * the task model's `logOnlyDirty` log does.
 */
module ProjectController {
  import opened Wrappers
  import opened Entities
  import opened Sorting
  import opened Organizations
  import opened Http
  import P = Permissions
  import PP = ProjectPolicy
  import R = ProjectRequests
  import D = Database
  import L = ActivityLog
  import TM = TaskModel

  predicate ProjectCountsFor(orgId: nat, p: ProjectRow) {
    p.organizationId == orgId && !p.Trashed()
  }

  /** The condition of `where('organization_id', ...)` on the soft-deleting projects table. */
  function ProjectsOf(orgId: nat): ProjectRow -> bool {
    p => ProjectCountsFor(orgId, p)
  }

  /** index: the actor's organization's projects, newest first. */
  function Index(grants: P.Grants, cfg: Config, actor: UserRow, actorOrg: OrganizationRow, projects: seq<ProjectRow>)
    : (r: Result<seq<ProjectRow>>)
    requires actorOrg.id == actor.organizationId
    ensures r.Err? <==> !PP.ViewAny(grants, cfg, actor, actorOrg)
    ensures r.Err? ==> r.failure == Forbidden
    ensures r.Ok? ==> IsListing(r.value, projects, ProjectsOf(actor.organizationId), ProjectNewerOrSame)
  {
    if !PP.ViewAny(grants, cfg, actor, actorOrg) then Err(Forbidden)
    else Ok(Listing(projects, ProjectsOf(actor.organizationId), ProjectNewerOrSame))
  }

  /** An index lists a project exactly when it is one of the actor's organization's untrashed projects. */
  lemma IndexShowsOwnOrganization(grants: P.Grants, cfg: Config, actor: UserRow, actorOrg: OrganizationRow,
                                  projects: seq<ProjectRow>, p: ProjectRow)
    requires actorOrg.id == actor.organizationId
    requires Index(grants, cfg, actor, actorOrg, projects).Ok?
    ensures p in Index(grants, cfg, actor, actorOrg, projects).value <==>
      p in projects && p.organizationId == actor.organizationId && !p.Trashed()
  {
    ListingMembers(Index(grants, cfg, actor, actorOrg, projects).value, projects, ProjectsOf(actor.organizationId), ProjectNewerOrSame);
  }

  function CreateForm(grants: P.Grants, cfg: Config, actor: UserRow, actorOrg: OrganizationRow): (r: Result<()>)
    requires actorOrg.id == actor.organizationId
    ensures r.Ok? <==> PP.Create(grants, cfg, actor, actorOrg)
    ensures r.Err? ==> r.failure == Forbidden
  {
    if PP.Create(grants, cfg, actor, actorOrg) then Ok(()) else Err(Forbidden)
  }

  /** show: the project and its latest activity, once `view` is allowed. */
  function Show(grants: P.Grants, cfg: Config, actor: UserRow, actorOrg: OrganizationRow,
                projects: seq<ProjectRow>, activities: seq<Activity>, projectId: nat)
    : (r: Result<(ProjectRow, seq<Activity>)>)
    requires actorOrg.id == actor.organizationId
    ensures D.FindProject(projects, projectId).None? ==> r == Err(NotFound)
    ensures D.FindProject(projects, projectId).Some? ==>
      var p := projects[D.FindProject(projects, projectId).value];
      && (r.Err? <==> !PP.View(grants, cfg, actor, actorOrg, p))
      && (r.Err? ==> r.failure == Forbidden)
      && (r.Ok? ==> r.value == (p, L.Window(activities, ProjectSubject(p.id))))
  {
    match D.FindProject(projects, projectId)
    case None => Err(NotFound)
    case Some(i) =>
      if !PP.View(grants, cfg, actor, actorOrg, projects[i]) then Err(Forbidden)
      else Ok((projects[i], L.Window(activities, ProjectSubject(projects[i].id))))
  }

  /** edit: the project, once `update` is allowed. */
  function Edit(grants: P.Grants, actor: UserRow, projects: seq<ProjectRow>, projectId: nat): (r: Result<ProjectRow>)
    ensures D.FindProject(projects, projectId).None? ==> r == Err(NotFound)
    ensures D.FindProject(projects, projectId).Some? ==>
      var p := projects[D.FindProject(projects, projectId).value];
      && (r.Ok? <==> PP.Update(grants, actor, p))
      && (r.Ok? ==> r.value == p)
      && (r.Err? ==> r.failure == Forbidden)
  {
    match D.FindProject(projects, projectId)
    case None => Err(NotFound)
    case Some(i) => if PP.Update(grants, actor, projects[i]) then Ok(projects[i]) else Err(Forbidden)
  }

  /** `setDescriptionForEvent` of the project model: "Project has been <event>". */
  function Description(e: Event): (s: string)
    ensures |s| > 17 && s[..17] == "Project has been " && s[17..] == TM.EventName(e)
  {
    "Project has been " + TM.EventName(e)
  }

  /** Different events get different descriptions. */
  lemma DescriptionsAreDistinct(e1: Event, e2: Event)
    requires e1 != e2
    ensures Description(e1) != Description(e2)
  {
    assert Description(e1)[17..] == TM.EventName(e1);
    assert Description(e2)[17..] == TM.EventName(e2);
  }

  /** The columns whose values differ between two versions of a project row. */
  function Changed(before: ProjectRow, after: ProjectRow): (cs: set<string>)
    ensures cs <= {"name", "description", "user_id", "organization_id"}
    ensures "name" in cs <==> before.name != after.name
    ensures "description" in cs <==> before.description != after.description
    ensures "user_id" in cs <==> before.userId != after.userId
    ensures "organization_id" in cs <==> before.organizationId != after.organizationId
  {
    (if before.name != after.name then {"name"} else {})
    + (if before.description != after.description then {"description"} else {})
    + (if before.userId != after.userId then {"user_id"} else {})
    + (if before.organizationId != after.organizationId then {"organization_id"} else {})
  }

  /**
   * store: 403 unless the policy's `create` allows it, 422 on invalid input,
   * otherwise one project in the actor's organization with the actor as
   * creator and the description defaulting to null. No count is compared
   * against any limit: an authorized, valid request always inserts.
   */
  method Store(db: D.Db, grants: P.Grants, cfg: Config, actor: UserRow, actorOrg: OrganizationRow,
               logged: set<string>, name: Input, description: Input, now: nat) returns (r: Result<nat>)
    requires db.Valid()
    requires actorOrg.id == actor.organizationId
    modifies db
    ensures db.Valid()
    ensures !R.StoreAuthorize(grants, cfg, actor, actorOrg) ==> r == Err(Forbidden) && unchanged(db)
    ensures R.StoreAuthorize(grants, cfg, actor, actorOrg) && R.Errors(name, description) != {} ==>
      r == Err(Invalid(R.Errors(name, description))) && unchanged(db)
    ensures R.StoreAuthorize(grants, cfg, actor, actorOrg) && R.Errors(name, description) == {} ==>
      && r == Ok(old(db.nextId))
      && db.projects == old(db.projects) + [ProjectRow(r.value, name.s, OrNull(description), actor.id, actor.organizationId, now, None)]
      && db.activities == old(db.activities) + [Activity(ProjectSubject(r.value), Created, Description(Created), logged, Some(actor.id), now)]
      && db.KeepsExcept({D.ProjectsTable, D.ActivityTable})
  {
    if !R.StoreAuthorize(grants, cfg, actor, actorOrg) {
      return Err(Forbidden);
    }
    var errors := R.Errors(name, description);
    if errors != {} {
      return Err(Invalid(errors));
    }
    var id := db.AddProject(name.s, OrNull(description), actor.id, actor.organizationId, now);
    db.Log(Activity(ProjectSubject(id), Created, Description(Created), logged, Some(actor.id), now));
    r := Ok(id);
  }

  /** The row an update writes: the new name, and the description only when the request sent one. */
  function Revised(p: ProjectRow, name: string, description: Input): (q: ProjectRow)
    requires !description.NonString?
    ensures q.id == p.id && q.organizationId == p.organizationId && q.userId == p.userId
    ensures q.createdAt == p.createdAt && q.deletedAt == p.deletedAt
    ensures q.name == name
    ensures description.Absent? ==> q.description == p.description
    ensures !description.Absent? ==> q.description == OrNull(description)
  {
    p.(name := name, description := if description.Absent? then p.description else OrNull(description))
  }

  /**
   * update: 404, then 403 unless the policy's `update` allows it, then 422
   * on invalid input; a refused request leaves the project as it was. An
   * accepted one logs `updated` with the logged columns it changed, and
   * nothing when it changed nothing.
   */
  method Update(db: D.Db, grants: P.Grants, actor: UserRow, logged: set<string>, projectId: nat,
                name: Input, description: Input, now: nat)
    returns (r: Result<()>)
    requires db.Valid()
    modifies db
    ensures db.Valid()
    ensures r.Err? ==> unchanged(db)
    ensures old(D.FindProject(db.projects, projectId)).None? ==> r == Err(NotFound)
    ensures old(D.FindProject(db.projects, projectId)).Some? ==>
      var i := old(D.FindProject(db.projects, projectId)).value;
      var p := old(db.projects[i]);
      && (!R.UpdateAuthorize(grants, actor, p) ==> r == Err(Forbidden))
      && (R.UpdateAuthorize(grants, actor, p) && R.Errors(name, description) != {} ==>
            r == Err(Invalid(R.Errors(name, description))))
      && (R.UpdateAuthorize(grants, actor, p) && R.Errors(name, description) == {} ==>
            && r == Ok(())
            && db.projects == old(db.projects)[i := Revised(p, name.s, description)]
            && (var changed := Changed(p, Revised(p, name.s, description));
                db.activities == old(db.activities)
                  + (if changed == {} then []
                     else [Activity(ProjectSubject(p.id), Updated, Description(Updated), changed * logged, Some(actor.id), now)]))
            && db.KeepsExcept({D.ProjectsTable, D.ActivityTable}))
  {
    var found := D.FindProject(db.projects, projectId);
    if found.None? {
      return Err(NotFound);
    }
    var p := db.projects[found.value];
    if !R.UpdateAuthorize(grants, actor, p) {
      return Err(Forbidden);
    }
    var errors := R.Errors(name, description);
    if errors != {} {
      return Err(Invalid(errors));
    }
    var q := Revised(p, name.s, description);
    db.SetProject(found.value, q);
    if Changed(p, q) != {} {
      db.Log(Activity(ProjectSubject(p.id), Updated, Description(Updated), Changed(p, q) * logged, Some(actor.id), now));
    }
    r := Ok(());
  }

  /** destroy: 404 for a missing or trashed project, 403 without `delete`, otherwise a soft delete and its `deleted` entry. */
  method Destroy(db: D.Db, grants: P.Grants, actor: UserRow, logged: set<string>, projectId: nat, now: nat)
    returns (r: Result<()>)
    requires db.Valid()
    modifies db
    ensures db.Valid()
    ensures r.Err? ==> unchanged(db)
    ensures old(D.FindProject(db.projects, projectId)).None? ==> r == Err(NotFound)
    ensures old(D.FindProject(db.projects, projectId)).Some? ==>
      var i := old(D.FindProject(db.projects, projectId)).value;
      var p := old(db.projects[i]);
      && (!PP.Delete(grants, actor, p) ==> r == Err(Forbidden))
      && (PP.Delete(grants, actor, p) ==>
            && r == Ok(())
            && db.projects == old(db.projects)[i := p.(deletedAt := Some(now))]
            && db.activities == old(db.activities) + [Activity(ProjectSubject(p.id), Deleted, Description(Deleted), logged, Some(actor.id), now)]
            && db.KeepsExcept({D.ProjectsTable, D.ActivityTable}))
  {
    var found := D.FindProject(db.projects, projectId);
    if found.None? {
      return Err(NotFound);
    }
    var p := db.projects[found.value];
    if !PP.Delete(grants, actor, p) {
      return Err(Forbidden);
    }
    db.SetProject(found.value, p.(deletedAt := Some(now)));
    db.Log(Activity(ProjectSubject(p.id), Deleted, Description(Deleted), logged, Some(actor.id), now));
    r := Ok(());
  }

  /** Resending a project's own name without a description changes no column, so it logs nothing. */
  lemma UnchangedUpdateNotLogged(p: ProjectRow)
    ensures Changed(p, Revised(p, p.name, Absent)) == {}
  {
  }
}
