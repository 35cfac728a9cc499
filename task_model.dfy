/**
 * `App\Models\Task`: which attributes mass assignment accepts, what the
 * activity log records for each model event, and the soft-delete lifecycle
 * (`delete` stamps `deleted_at`, `restore` clears it).
 */
module TaskModel {
  import opened Wrappers
  import opened Entities
  import D = Database

  /** `$fillable`, by column name. */
  const Fillable: set<string> := {"name", "description", "user_id", "organization_id", "assigned_to_user_id"}

  /** The attributes the activity log is told to record (`logOnly`). */
  const Logged: set<TaskAttribute> := {NameAttr, DescriptionAttr, UserIdAttr, OrganizationIdAttr, AssignedToAttr}

  function Column(a: TaskAttribute): string {
    match a
    case NameAttr => "name"
    case DescriptionAttr => "description"
    case UserIdAttr => "user_id"
    case OrganizationIdAttr => "organization_id"
    case AssignedToAttr => "assigned_to_user_id"
  }

  /** The column names of a set of attributes, as the log records them. */
  function Columns(attrs: set<TaskAttribute>): (cs: set<string>)
    ensures forall a: TaskAttribute :: Column(a) in cs <==> a in attrs
    ensures forall c :: c in cs ==> exists a :: a in attrs && Column(a) == c
  {
    set a | a in attrs :: Column(a)
  }

  /** The logged attributes are exactly the fillable columns, one attribute per column. */
  lemma LoggedAreFillable()
    ensures forall a: TaskAttribute :: a in Logged && Column(a) in Fillable
    ensures forall c :: c in Fillable ==> exists a: TaskAttribute :: Column(a) == c
    ensures forall a: TaskAttribute, b: TaskAttribute :: Column(a) == Column(b) ==> a == b
    ensures Columns(Logged) == Fillable
  {
    forall a: TaskAttribute ensures a in Logged && Column(a) in Fillable {
      match a
      case NameAttr =>
      case DescriptionAttr =>
      case UserIdAttr =>
      case OrganizationIdAttr =>
      case AssignedToAttr =>
    }
    forall c | c in Fillable
      ensures exists a: TaskAttribute :: Column(a) == c
    {
      if c == "name" { assert Column(NameAttr) == c; }
      else if c == "description" { assert Column(DescriptionAttr) == c; }
      else if c == "user_id" { assert Column(UserIdAttr) == c; }
      else if c == "organization_id" { assert Column(OrganizationIdAttr) == c; }
      else { assert Column(AssignedToAttr) == c; }
    }
  }

  /** Mass assignment (`Task::create([...])`, `$task->update([...])`) keeps only fillable keys. */
  function Fill<V>(input: map<string, V>): (r: map<string, V>)
    ensures r.Keys <= Fillable && r.Keys <= input.Keys
    ensures forall k :: k in Fillable && k in input ==> k in r && r[k] == input[k]
  {
    map k | k in input && k in Fillable :: input[k]
  }

  /** Filling twice is filling once; `id`, `deleted_at` and timestamps can never be mass-assigned. */
  lemma FillIdempotent<V>(input: map<string, V>)
    ensures Fill(Fill(input)) == Fill(input)
    ensures "id" !in Fill(input) && "deleted_at" !in Fill(input) && "created_at" !in Fill(input)
  {
  }

  /** An attribute value as the log compares it. */
  datatype Value = NullValue | Text(s: string) | Number(n: nat)

  function OptionalText(o: Option<string>): Value {
    match o
    case None => NullValue
    case Some(s) => Text(s)
  }

  function OptionalNumber(o: Option<nat>): Value {
    match o
    case None => NullValue
    case Some(n) => Number(n)
  }

  function AttributeValue(t: TaskRow, a: TaskAttribute): Value {
    match a
    case NameAttr => Text(t.name)
    case DescriptionAttr => OptionalText(t.description)
    case UserIdAttr => Number(t.userId)
    case OrganizationIdAttr => Number(t.organizationId)
    case AssignedToAttr => OptionalNumber(t.assignedTo)
  }

  /** The logged attributes whose values differ between the two versions of the row. */
  function Dirty(before: TaskRow, after: TaskRow): (d: set<TaskAttribute>)
    ensures forall a: TaskAttribute :: a in d <==> AttributeValue(before, a) != AttributeValue(after, a)
  {
    set a | a in Logged && AttributeValue(before, a) != AttributeValue(after, a)
  }

  /**
   * `logOnly([...])->logOnlyDirty()`: an update records only the logged
   * attributes that changed; the other events record all five.
   */
  function LoggedProperties(event: Event, before: TaskRow, after: TaskRow): (ps: set<TaskAttribute>)
    ensures ps <= Logged
    ensures event == Updated ==> forall a: TaskAttribute :: a in ps <==> AttributeValue(before, a) != AttributeValue(after, a)
    ensures event != Updated ==> ps == Logged
  {
    if event == Updated then Dirty(before, after) else Logged
  }

  function EventName(e: Event): string {
    match e
    case Created => "created"
    case Updated => "updated"
    case Deleted => "deleted"
    case Restored => "restored"
  }

  /** `setDescriptionForEvent`: "Task has been <event>". */
  function Description(e: Event): (s: string)
    ensures |s| > 14 && s[..14] == "Task has been " && s[14..] == EventName(e)
  {
    "Task has been " + EventName(e)
  }

  /** Different events get different descriptions. */
  lemma DescriptionsAreDistinct(e1: Event, e2: Event)
    requires e1 != e2
    ensures Description(e1) != Description(e2)
  {
    assert Description(e1)[14..] == EventName(e1);
    assert Description(e2)[14..] == EventName(e2);
  }

  /** SoftDeletes: `delete` stamps `deleted_at`, `restore` clears it. */
  function Trash(t: TaskRow, now: nat): (r: TaskRow)
    ensures r.Trashed() && r.deletedAt == Some(now)
    ensures r.(deletedAt := t.deletedAt) == t
  {
    t.(deletedAt := Some(now))
  }

  function Untrash(t: TaskRow): (r: TaskRow)
    ensures !r.Trashed()
    ensures r.(deletedAt := t.deletedAt) == t
  {
    t.(deletedAt := None)
  }

  /** Restoring a deleted task gives back the task as it was, and neither step changes a logged attribute. */
  lemma RestoreUndoesDelete(t: TaskRow, now: nat)
    requires !t.Trashed()
    ensures Untrash(Trash(t, now)) == t
    ensures Dirty(t, Trash(t, now)) == {} && Dirty(Trash(t, now), t) == {}
  {
    assert Dirty(t, Trash(t, now)) == {} by {
      forall a: TaskAttribute ensures AttributeValue(t, a) == AttributeValue(Trash(t, now), a) {}
    }
    assert Dirty(Trash(t, now), t) == {} by {
      forall a: TaskAttribute ensures AttributeValue(Trash(t, now), a) == AttributeValue(t, a) {}
    }
  }

  /** The fillable attributes of a validated update; `None` leaves the attribute as it is. */
  datatype Patch = Patch(
    name: Option<string>,
    description: Option<Option<string>>,
    userId: Option<nat>,
    organizationId: Option<nat>,
    assignedTo: Option<Option<nat>>)

  function Patched(p: Patch): set<TaskAttribute> {
    (if p.name.Some? then {NameAttr} else {})
    + (if p.description.Some? then {DescriptionAttr} else {})
    + (if p.userId.Some? then {UserIdAttr} else {})
    + (if p.organizationId.Some? then {OrganizationIdAttr} else {})
    + (if p.assignedTo.Some? then {AssignedToAttr} else {})
  }

  /** `$task->update($validated)`: each patched attribute takes the patch's value; everything else is kept. */
  function Apply(t: TaskRow, p: Patch): (r: TaskRow)
    ensures r.id == t.id && r.createdAt == t.createdAt && r.deletedAt == t.deletedAt
    ensures r.name == if p.name.Some? then p.name.value else t.name
    ensures r.description == if p.description.Some? then p.description.value else t.description
    ensures r.userId == if p.userId.Some? then p.userId.value else t.userId
    ensures r.organizationId == if p.organizationId.Some? then p.organizationId.value else t.organizationId
    ensures r.assignedTo == if p.assignedTo.Some? then p.assignedTo.value else t.assignedTo
  {
    TaskRow(
      t.id,
      if p.name.Some? then p.name.value else t.name,
      if p.description.Some? then p.description.value else t.description,
      if p.userId.Some? then p.userId.value else t.userId,
      if p.organizationId.Some? then p.organizationId.value else t.organizationId,
      if p.assignedTo.Some? then p.assignedTo.value else t.assignedTo,
      t.createdAt,
      t.deletedAt)
  }

  /** An update can only make the attributes it names dirty, and an empty update changes nothing. */
  lemma DirtyWithinPatch(t: TaskRow, p: Patch)
    ensures Dirty(t, Apply(t, p)) <= Patched(p)
    ensures Patched(p) == {} ==> Apply(t, p) == t
  {
    forall a | a in Dirty(t, Apply(t, p)) ensures a in Patched(p) {
      match a
      case NameAttr =>
      case DescriptionAttr =>
      case UserIdAttr =>
      case OrganizationIdAttr =>
      case AssignedToAttr =>
    }
  }

  /** A patched attribute whose value the update changes is reported dirty, so the update is logged. */
  lemma ChangedPatchIsDirty(t: TaskRow, p: Patch, a: TaskAttribute)
    requires a in Patched(p)
    requires AttributeValue(Apply(t, p), a) != AttributeValue(t, a)
    ensures a in Dirty(t, Apply(t, p))
    ensures Dirty(t, Apply(t, p)) != {}
  {
  }

  function Entry(id: nat, event: Event, before: TaskRow, after: TaskRow, causer: Option<nat>, now: nat): Activity {
    Activity(TaskSubject(id), event, Description(event), Columns(LoggedProperties(event, before, after)), causer, now)
  }

  /** `Task::create([...])`: inserts the row and logs `created` with all logged attributes. */
  method Create(db: D.Db, name: string, description: Option<string>, userId: nat, organizationId: nat,
                causer: Option<nat>, now: nat) returns (id: nat)
    requires db.Valid()
    modifies db
    ensures db.Valid()
    ensures id == old(db.nextId)
    ensures db.tasks == old(db.tasks) + [TaskRow(id, name, description, userId, organizationId, None, now, None)]
    ensures db.activities == old(db.activities) + [Activity(TaskSubject(id), Created, Description(Created), Columns(Logged), causer, now)]
    ensures db.KeepsExcept({D.TasksTable, D.ActivityTable})
  {
    id := db.AddTask(name, description, userId, organizationId, now);
    var row := db.tasks[|db.tasks| - 1];
    db.Log(Entry(id, Created, row, row, causer, now));
  }

  /** `$task->delete()` on an untrashed task: soft delete, then the `deleted` entry. */
  method Delete(db: D.Db, i: nat, causer: Option<nat>, now: nat)
    requires db.Valid()
    requires i < |db.tasks| && !db.tasks[i].Trashed()
    modifies db
    ensures db.Valid()
    ensures db.tasks == old(db.tasks)[i := Trash(old(db.tasks[i]), now)]
    ensures db.activities == old(db.activities) + [Activity(TaskSubject(old(db.tasks[i]).id), Deleted, Description(Deleted), Columns(Logged), causer, now)]
    ensures db.KeepsExcept({D.TasksTable, D.ActivityTable})
  {
    var before := db.tasks[i];
    var after := Trash(before, now);
    db.SetTask(i, after);
    db.Log(Entry(before.id, Deleted, before, after, causer, now));
  }

  /** `$task->restore()` on a trashed task: clears `deleted_at`, then the `restored` entry. */
  method Restore(db: D.Db, i: nat, causer: Option<nat>, now: nat)
    requires db.Valid()
    requires i < |db.tasks| && db.tasks[i].Trashed()
    modifies db
    ensures db.Valid()
    ensures db.tasks == old(db.tasks)[i := Untrash(old(db.tasks[i]))]
    ensures db.activities == old(db.activities) + [Activity(TaskSubject(old(db.tasks[i]).id), Restored, Description(Restored), Columns(Logged), causer, now)]
    ensures db.KeepsExcept({D.TasksTable, D.ActivityTable})
  {
    var before := db.tasks[i];
    var after := Untrash(before);
    db.SetTask(i, after);
    db.Log(Entry(before.id, Restored, before, after, causer, now));
  }

  /**
   * `$task->update([...])`: writes the patch; when some logged attribute
   * changed, logs `updated` with exactly the changed ones, otherwise logs
   * nothing (an update that changes nothing does not save).
   */
  method Update(db: D.Db, i: nat, p: Patch, causer: Option<nat>, now: nat)
    requires db.Valid()
    requires i < |db.tasks|
    modifies db
    ensures db.Valid()
    ensures db.tasks == old(db.tasks)[i := Apply(old(db.tasks[i]), p)]
    ensures var d := Dirty(old(db.tasks[i]), Apply(old(db.tasks[i]), p));
      db.activities == old(db.activities)
        + (if d == {} then [] else [Activity(TaskSubject(old(db.tasks[i]).id), Updated, Description(Updated), Columns(d), causer, now)])
    ensures db.KeepsExcept({D.TasksTable, D.ActivityTable})
  {
    var before := db.tasks[i];
    var after := Apply(before, p);
    db.SetTask(i, after);
    if Dirty(before, after) != {} {
      db.Log(Entry(before.id, Updated, before, after, causer, now));
    }
  }
}
