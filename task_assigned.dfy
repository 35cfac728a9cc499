/**
 * The `TaskAssigned` notification: the channels it is delivered on and the
 * payload stored in the database channel. `showUrl` stands for
 * `route('tasks.show', ...)`; the mail rendering is not part of this model.
 */
module TaskAssigned {
  import opened Wrappers
  import opened Entities
  import D = Database

  /** via: always the database channel, and mail too when the recipient wants email. */
  function Via(recipient: UserRow): (channels: seq<string>)
    ensures 1 <= |channels| <= 2 && channels[0] == "database"
    ensures "mail" in channels <==> recipient.emailNotifications
    ensures forall i, j :: 0 <= i < j < |channels| ==> channels[i] != channels[j]
  {
    ["database"] + (if recipient.emailNotifications then ["mail"] else [])
  }

  datatype Payload = Payload(
    taskId: nat,
    taskName: string,
    taskDescription: Option<string>,
    assignerName: string,
    actionUrl: string)

  /**
   * toArray: the task's id, name and description, the name of the user who
   * created the task (`$task->user`), and the task's page. Without that user
   * the property read fails, which is None here.
   */
  function ToArray(task: TaskRow, users: seq<UserRow>, showUrl: nat -> string): (p: Option<Payload>)
    ensures p.None? <==> forall i :: 0 <= i < |users| ==> users[i].id != task.userId
    ensures p.Some? ==>
      && p.value.taskId == task.id && p.value.taskName == task.name
      && p.value.taskDescription == task.description
      && p.value.actionUrl == showUrl(task.id)
      && exists i :: 0 <= i < |users| && users[i].id == task.userId && users[i].name == p.value.assignerName
  {
    match D.FindUser(users, task.userId)
    case None => None
    case Some(i) => Some(Payload(task.id, task.name, task.description, users[i].name, showUrl(task.id)))
  }

  /** With unique user ids the assigner is the creator, whoever receives the notification. */
  lemma AssignerIsCreator(task: TaskRow, users: seq<UserRow>, showUrl: nat -> string, creator: UserRow)
    requires D.DistinctKeys(users, D.UserId)
    requires creator in users && creator.id == task.userId
    ensures ToArray(task, users, showUrl) == Some(Payload(task.id, task.name, task.description, creator.name, showUrl(task.id)))
  {
    var k :| 0 <= k < |users| && users[k] == creator;
    var i := D.FindUser(users, task.userId).value;
    assert D.UserId(users[i]) == D.UserId(users[k]);
  }
}
