/**
 * `App\Http\Controllers\TaskController`. Route-model binding finds only
 * untrashed tasks (404 otherwise); `Gate::authorize` turns a denied policy
 * decision into 403 before the action touches anything.
 */
module TaskController {
  import opened Wrappers
  import opened Entities
  import opened Sorting
  import opened Organizations
  import opened Http
  import P = Permissions
  import TP = TaskPolicy
  import TM = TaskModel
  import D = Database
  import L = ActivityLog

  /** index: the actor's organization's tasks, newest first. */
  function Index(grants: P.Grants, actor: UserRow, tasks: seq<TaskRow>): (r: Result<seq<TaskRow>>)
    ensures r.Err? <==> !TP.ViewAny(grants, actor)
    ensures r.Err? ==> r.failure == Forbidden
    ensures r.Ok? ==> IsListing(r.value, tasks, OfOrganization(actor.organizationId), TaskNewerOrSame)
  {
    if !TP.ViewAny(grants, actor) then Err(Forbidden)
    else Ok(Listing(tasks, OfOrganization(actor.organizationId), TaskNewerOrSame))
  }

  /** An index lists a task exactly when it is one of the actor's organization's untrashed tasks. */
  lemma IndexShowsOwnOrganization(grants: P.Grants, actor: UserRow, tasks: seq<TaskRow>, t: TaskRow)
    requires Index(grants, actor, tasks).Ok?
    ensures t in Index(grants, actor, tasks).value <==>
      t in tasks && t.organizationId == actor.organizationId && !t.Trashed()
  {
    ListingMembers(Index(grants, actor, tasks).value, tasks, OfOrganization(actor.organizationId), TaskNewerOrSame);
  }

  /** show: the task and its latest activity, once `view` is allowed. */
  function Show(grants: P.Grants, actor: UserRow, tasks: seq<TaskRow>, activities: seq<Activity>, taskId: nat)
    : (r: Result<(TaskRow, seq<Activity>)>)
    ensures D.FindTask(tasks, taskId).None? ==> r == Err(NotFound)
    ensures D.FindTask(tasks, taskId).Some? ==>
      var t := tasks[D.FindTask(tasks, taskId).value];
      && (r.Err? <==> !TP.View(grants, actor, t))
      && (r.Err? ==> r.failure == Forbidden)
      && (r.Ok? ==> r.value == (t, L.Window(activities, TaskSubject(t.id))))
  {
    match D.FindTask(tasks, taskId)
    case None => Err(NotFound)
    case Some(i) =>
      if !TP.View(grants, actor, tasks[i]) then Err(Forbidden)
      else Ok((tasks[i], L.Window(activities, TaskSubject(tasks[i].id))))
  }

  /** create and edit only render a form once `create` / `update` is allowed. */
  function CreateForm(grants: P.Grants, actor: UserRow): (r: Result<()>)
    ensures r.Ok? <==> TP.Create(grants, actor)
    ensures r.Err? ==> r.failure == Forbidden
  {
    if TP.Create(grants, actor) then Ok(()) else Err(Forbidden)
  }

  function Edit(grants: P.Grants, actor: UserRow, tasks: seq<TaskRow>, taskId: nat): (r: Result<TaskRow>)
    ensures D.FindTask(tasks, taskId).None? ==> r == Err(NotFound)
    ensures D.FindTask(tasks, taskId).Some? ==>
      var t := tasks[D.FindTask(tasks, taskId).value];
      && (r.Ok? <==> TP.Update(grants, actor, t))
      && (r.Ok? ==> r.value == t)
      && (r.Err? ==> r.failure == Forbidden)
  {
    match D.FindTask(tasks, taskId)
    case None => Err(NotFound)
    case Some(i) => if TP.Update(grants, actor, tasks[i]) then Ok(tasks[i]) else Err(Forbidden)
  }

  /** One more untrashed task of the organization adds one to its count. */
  lemma {:induction false} CountGrowsByOne(org: OrganizationRow, tasks: seq<TaskRow>, row: TaskRow)
    requires CountsFor(org.id, row)
    ensures TasksCount(org, tasks + [row]) == TasksCount(org, tasks) + 1
  {
    var p := OfOrganization(org.id);
    var before := Filter(tasks, p);
    var after := Filter(tasks + [row], p);
    assert multiset(tasks + [row]) == multiset(tasks) + multiset{row};
    assert multiset(after) == multiset(before) + multiset{row} by {
      forall x ensures multiset(after)[x] == (multiset(before) + multiset{row})[x] {
        if p(x) {
          assert multiset(after)[x] == multiset(tasks + [row])[x];
        }
      }
    }
    assert |multiset(after)| == |multiset(before)| + 1;
  }

  /**
   * store, with `name` and `description` as the request validated them
   * (`description` is None when it was missing or null). The quota gate comes
   * first: over the limit nothing changes and the answer carries the limit.
   * Otherwise one task is inserted with the actor as creator, in the actor's
   * organization, unassigned, and its `created` entry is logged. A bounded plan
   * never ends up over its limit this way.
   */
  method Store(db: D.Db, cfg: Config, actor: UserRow, org: OrganizationRow,
               name: string, description: Option<string>, now: nat)
    returns (r: Result<nat>)
    requires db.Valid()
    requires org.id == actor.organizationId
    modifies db
    ensures db.Valid()
    ensures !old(CanCreateTask(org, cfg, db.tasks)) ==>
      && TaskLimit(org, cfg).Some?
      && r == Err(QuotaExceeded(TaskLimit(org, cfg).value))
      && unchanged(db)
    ensures old(CanCreateTask(org, cfg, db.tasks)) ==>
      && r == Ok(old(db.nextId))
      && db.tasks == old(db.tasks) + [TaskRow(r.value, name, description, actor.id, actor.organizationId, None, now, None)]
      && db.activities == old(db.activities) + [Activity(TaskSubject(r.value), Created, TM.Description(Created), TM.Columns(TM.Logged), Some(actor.id), now)]
      && db.KeepsExcept({D.TasksTable, D.ActivityTable})
      && TasksCount(org, db.tasks) == old(TasksCount(org, db.tasks)) + 1
    ensures r.Ok? && TaskLimit(org, cfg).Some? ==> TasksCount(org, db.tasks) <= TaskLimit(org, cfg).value
  {
    if !CanCreateTask(org, cfg, db.tasks) {
      return Err(QuotaExceeded(TaskLimit(org, cfg).value));
    }
    var id := TM.Create(db, name, description, actor.id, actor.organizationId, Some(actor.id), now);
    CountGrowsByOne(org, old(db.tasks), TaskRow(id, name, description, actor.id, actor.organizationId, None, now, None));
    r := Ok(id);
  }

  /**
   * update, with the request's validated fields as a patch. The controller
   * itself calls no Gate.
   */
  method Update(db: D.Db, taskId: nat, patch: TM.Patch, actor: UserRow, now: nat) returns (r: Result<()>)
    requires db.Valid()
    modifies db
    ensures db.Valid()
    ensures old(D.FindTask(db.tasks, taskId)).None? ==> r == Err(NotFound) && unchanged(db)
    ensures old(D.FindTask(db.tasks, taskId)).Some? ==>
      var i := old(D.FindTask(db.tasks, taskId)).value;
      var before := old(db.tasks[i]);
      var d := TM.Dirty(before, TM.Apply(before, patch));
      && r == Ok(())
      && db.tasks == old(db.tasks)[i := TM.Apply(before, patch)]
      && db.activities == old(db.activities)
        + (if d == {} then [] else [Activity(TaskSubject(before.id), Updated, TM.Description(Updated), TM.Columns(d), Some(actor.id), now)])
      && db.KeepsExcept({D.TasksTable, D.ActivityTable})
  {
    var found := D.FindTask(db.tasks, taskId);
    if found.None? {
      return Err(NotFound);
    }
    TM.Update(db, found.value, patch, Some(actor.id), now);
    r := Ok(());
  }

  /** destroy: 404 for a missing or trashed task, 403 without `delete`, otherwise a soft delete. */
  method Destroy(db: D.Db, grants: P.Grants, actor: UserRow, taskId: nat, now: nat) returns (r: Result<()>)
    requires db.Valid()
    modifies db
    ensures db.Valid()
    ensures old(D.FindTask(db.tasks, taskId)).None? ==> r == Err(NotFound) && unchanged(db)
    ensures old(D.FindTask(db.tasks, taskId)).Some? ==>
      var i := old(D.FindTask(db.tasks, taskId)).value;
      var t := old(db.tasks[i]);
      && (!TP.Delete(grants, actor, t) ==> r == Err(Forbidden) && unchanged(db))
      && (TP.Delete(grants, actor, t) ==>
            && r == Ok(())
            && db.tasks == old(db.tasks)[i := TM.Trash(t, now)]
            && db.activities == old(db.activities) + [Activity(TaskSubject(t.id), Deleted, TM.Description(Deleted), TM.Columns(TM.Logged), Some(actor.id), now)]
            && db.KeepsExcept({D.TasksTable, D.ActivityTable}))
  {
    var found := D.FindTask(db.tasks, taskId);
    if found.None? {
      return Err(NotFound);
    }
    if !TP.Delete(grants, actor, db.tasks[found.value]) {
      return Err(Forbidden);
    }
    TM.Delete(db, found.value, Some(actor.id), now);
    r := Ok(());
  }

  /** A deleted task can no longer be found, so it is gone from later show, edit and destroy requests. */
  lemma DeletedTaskNotFound(tasks: seq<TaskRow>, i: nat, now: nat)
    requires i < |tasks|
    requires D.DistinctKeys(tasks, D.TaskId)
    ensures D.FindTask(tasks[i := TM.Trash(tasks[i], now)], tasks[i].id).None?
  {
    var after := tasks[i := TM.Trash(tasks[i], now)];
    forall k | 0 <= k < |after|
      ensures after[k].id != tasks[i].id || after[k].Trashed()
    {
      if k != i {
        assert D.TaskId(tasks[k]) != D.TaskId(tasks[i]);
      }
    }
  }
}
