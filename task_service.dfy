/** Task creation and update (internal/domain/tasks/service.go): only a
    project's owner creates its tasks; its owner or the task's current assignee
    updates one. Each success is logged in the task history and, when a hub is
    attached, announced to every connected client as a colon-separated
    notification.

    The source has no in-memory task repository; `TaskStore` is a table with an
    id counter that behaves as the Postgres repository does (an update keeps
    the task's project). Failures that only the database produces are explicit
    inputs of the operations. */
module TaskService {
  import opened Wrappers
  import opened Text
  import Ws
  import ProjectRepo

  datatype Task = Task(ID: int, ProjectID: int, Title: string, Description: string, Status: string, AssignedTo: Option<int>)

  /** `TaskActivity` as the service fills it in; the row id, the user's e-mail
      and the time are the database's. */
  datatype TaskActivity = TaskActivity(TaskID: int, UserID: int, Action: string, Details: string)

  const ErrUnauthorized: string := "unauthorized: you do not have permission for this action"
  const ErrNotOwnerOrAssignee: string := "unauthorized: you are not the owner or the assigned member"
  /** What the Postgres driver reports for a missing row. */
  const ErrNoRows: string := "no rows in result set"

  const CreatedAction: string := "CREATED"
  const UpdatedAction: string := "UPDATED"

  /** The creation entry as service.go:55 writes it, from the assignee read
      through the pointer. */
  function CreatedDetails(assignee: int): string {
    "Task created and assigned to user " + Decimal(assignee)
  }

  /** The creation entry when the assignee may be missing: a task created
      without one is logged as unassigned, and an assigned one exactly as
      before. */
  function CheckedCreatedDetails(assignee: Option<int>): (d: string)
    ensures assignee.Some? ==> d == CreatedDetails(assignee.value)
    ensures assignee.None? ==> forall a :: d != CreatedDetails(a)
  {
    if assignee.Some? then CreatedDetails(assignee.value)
    else
      var d := "Task created without an assignee";
      assert forall a :: CreatedDetails(a)[13] == 'a' != d[13];
      d
  }

  /** What a Go call ends with: a return, or a panic that unwinds past every
      later statement. */
  datatype Outcome<T> = Returned(result: Result<T>) | Panicked

  function UpdatedDetails(requesterID: int, status: string): string {
    "Task updated by user " + Decimal(requesterID) + ". New Status: " + status
  }

  /** The text broadcast after a creation, `TASK_CREATED:<project>`. */
  function CreatedNotification(projectID: int): string {
    "TASK_CREATED:" + Decimal(projectID)
  }

  /** The text broadcast after an update, `TASK_UPDATED:<project>:<task>`. */
  function UpdatedNotification(projectID: int, taskID: int): string {
    "TASK_UPDATED:" + Decimal(projectID) + ":" + Decimal(taskID)
  }

  lemma CreatedFields(projectID: int)
    ensures Split(CreatedNotification(projectID), ':') == ["TASK_CREATED", Decimal(projectID)]
  {
    var tag := "TASK_CREATED";
    var p := Decimal(projectID);
    DecimalHasNoColon(projectID);
    assert ':' !in tag;
    assert CreatedNotification(projectID) == tag + [':'] + p;
    SplitAfterField(tag, p, ':');
    SplitWithoutSep(p, ':');
  }

  lemma UpdatedFields(projectID: int, taskID: int)
    ensures Split(UpdatedNotification(projectID, taskID), ':') == ["TASK_UPDATED", Decimal(projectID), Decimal(taskID)]
  {
    var tag := "TASK_UPDATED";
    var p := Decimal(projectID);
    var t := Decimal(taskID);
    DecimalHasNoColon(projectID);
    DecimalHasNoColon(taskID);
    assert ':' !in tag;
    assert UpdatedNotification(projectID, taskID) == tag + [':'] + (p + [':'] + t);
    SplitAfterField(tag, p + [':'] + t, ':');
    SplitAfterField(p, t, ':');
    SplitWithoutSep(t, ':');
  }

  /** The table after the row with `updated`'s id is written: that row is
      replaced, every other row is kept, and none moves. */
  function Overwrite(tasks: seq<Task>, updated: Task): (r: seq<Task>)
  {
    seq(|tasks|, i requires 0 <= i < |tasks| => if tasks[i].ID == updated.ID then updated else tasks[i])
  }

  /** Writing the one row with that id is the table update. */
  lemma OverwriteAt(tasks: seq<Task>, i: int, updated: Task)
    requires 0 <= i < |tasks| && tasks[i].ID == updated.ID
    requires forall k :: 0 <= k < |tasks| && k != i ==> tasks[k].ID != updated.ID
    ensures Overwrite(tasks, updated) == tasks[i := updated]
  {
  }

  /** The notifications as the bytes the hub sends. */
  function CreatedPayload(projectID: int): Ws.Payload {
    Utf8(CreatedNotification(projectID))
  }

  function UpdatedPayload(projectID: int, taskID: int): Ws.Payload {
    Utf8(UpdatedNotification(projectID, taskID))
  }

  /** Stored ids are positive, below the counter, and increase along the
      table. */
  ghost predicate WellNumbered(tasks: seq<Task>, nextID: int) {
    && (forall i :: 0 <= i < |tasks| ==> 1 <= tasks[i].ID < nextID)
    && (forall i, j :: 0 <= i < j < |tasks| ==> tasks[i].ID < tasks[j].ID)
  }

  /** So no two rows share an id. */
  lemma IdsAreUnique(tasks: seq<Task>, nextID: int, i: int)
    requires WellNumbered(tasks, nextID) && 0 <= i < |tasks|
    ensures forall k :: 0 <= k < |tasks| && k != i ==> tasks[k].ID != tasks[i].ID
  {
  }

  /** An overwrite changes no id, so the numbering survives it. */
  lemma OverwriteKeepsNumbering(tasks: seq<Task>, updated: Task, nextID: int)
    requires WellNumbered(tasks, nextID)
    ensures WellNumbered(Overwrite(tasks, updated), nextID)
  {
    var r := Overwrite(tasks, updated);
    assert forall k :: 0 <= k < |r| ==> r[k].ID == tasks[k].ID;
  }

  /** Who may update a task: the project's owner, or the user the task is
      currently assigned to. */
  predicate MayUpdate(ownerID: int, assignedTo: Option<int>, requesterID: int) {
    ownerID == requesterID || (assignedTo.Some? && assignedTo.value == requesterID)
  }

  /** Why a creation stops before the task is stored, if it does. */
  function CreateRefusal(projects: seq<ProjectRepo.Project>, requesterID: int, t: Task, createFault: Option<string>): (e: Option<string>)
    ensures e.None? <==>
      ProjectRepo.HasProject(projects, t.ProjectID) &&
      ProjectRepo.Lookup(projects, t.ProjectID).value.OwnerID == requesterID && createFault.None?
    ensures !ProjectRepo.HasProject(projects, t.ProjectID) ==> e == Some("failed to fetch project: " + ProjectRepo.ErrProjectNotFound)
    ensures ProjectRepo.HasProject(projects, t.ProjectID) && ProjectRepo.Lookup(projects, t.ProjectID).value.OwnerID != requesterID ==>
      e == Some(ErrUnauthorized)
  {
    var project := ProjectRepo.Lookup(projects, t.ProjectID);
    if project.None? then Some("failed to fetch project: " + ProjectRepo.ErrProjectNotFound)
    else if project.value.OwnerID != requesterID then Some(ErrUnauthorized)
    else if createFault.Some? then Some("failed to create task: " + createFault.value)
    else None
  }

  /** The checks before the insert never look at the assignee, so a task
      sent without one (the create form's default) is stored exactly when an
      assigned one would be. */
  lemma RefusalIgnoresAssignee(projects: seq<ProjectRepo.Project>, requesterID: int, t: Task, createFault: Option<string>)
    ensures CreateRefusal(projects, requesterID, t.(AssignedTo := None), createFault) ==
            CreateRefusal(projects, requesterID, t, createFault)
  {
  }

  predicate HasTask(tasks: seq<Task>, id: int) {
    exists i :: 0 <= i < |tasks| && tasks[i].ID == id
  }

  /** The first stored task with that id. */
  function FindTask(tasks: seq<Task>, id: int): (r: Option<Task>)
    ensures r.Some? <==> HasTask(tasks, id)
    ensures r.Some? ==> r.value in tasks && r.value.ID == id
    decreases |tasks|
  {
    if |tasks| == 0 then None
    else if tasks[0].ID == id then Some(tasks[0])
    else
      var r := FindTask(tasks[1..], id);
      assert HasTask(tasks, id) ==> HasTask(tasks[1..], id) by {
        if HasTask(tasks, id) {
          var i :| 0 <= i < |tasks| && tasks[i].ID == id;
          assert tasks[1..][i - 1] == tasks[i];
        }
      }
      r
  }

  /** Why an update stops before the task is changed, if it does: the task
      and its project must exist, the requester must be allowed, and the
      store must accept the change. */
  function UpdateRefusal(
    tasks: seq<Task>, projects: seq<ProjectRepo.Project>, requesterID: int, t: Task, updateFault: Option<string>): (e: Option<string>)
    ensures e.None? <==>
      && HasTask(tasks, t.ID)
      && ProjectRepo.HasProject(projects, FindTask(tasks, t.ID).value.ProjectID)
      && MayUpdate(ProjectRepo.Lookup(projects, FindTask(tasks, t.ID).value.ProjectID).value.OwnerID,
                   FindTask(tasks, t.ID).value.AssignedTo, requesterID)
      && updateFault.None?
    ensures (HasTask(tasks, t.ID) && ProjectRepo.HasProject(projects, FindTask(tasks, t.ID).value.ProjectID) &&
             !MayUpdate(ProjectRepo.Lookup(projects, FindTask(tasks, t.ID).value.ProjectID).value.OwnerID,
                        FindTask(tasks, t.ID).value.AssignedTo, requesterID))
      ==> e == Some(ErrNotOwnerOrAssignee)
  {
    var existing := FindTask(tasks, t.ID);
    if existing.None? then Some("task not found: " + ErrNoRows)
    else
      var project := ProjectRepo.Lookup(projects, existing.value.ProjectID);
      if project.None? then Some("failed to verify project ownership: " + ProjectRepo.ErrProjectNotFound)
      else
        var isOwner := project.value.OwnerID == requesterID;
        var isAssignee := existing.value.AssignedTo.Some? && existing.value.AssignedTo.value == requesterID;
        if !isOwner && !isAssignee then Some(ErrNotOwnerOrAssignee)
        else if updateFault.Some? then Some("failed to update task: " + updateFault.value)
        else None
  }

  /** The task table and its history log. */
  class TaskStore {
    var tasks: seq<Task>
    var history: seq<TaskActivity>
    var nextID: int

    /** Stored ids are positive, below the counter, and increase along the
        table. */
    ghost predicate Valid()
      reads this
    {
      nextID >= 1 && WellNumbered(tasks, nextID)
    }

    constructor ()
      ensures Valid() && tasks == [] && history == [] && nextID == 1
    {
      tasks := [];
      history := [];
      nextID := 1;
    }

    /** Stores the task under the next id. */
    method CreateTask(t: Task) returns (created: Task)
      requires Valid()
      modifies this`tasks, this`nextID
      ensures Valid()
      ensures created == t.(ID := old(nextID)) && nextID == old(nextID) + 1
      ensures tasks == old(tasks) + [created]
    {
      created := t.(ID := nextID);
      nextID := nextID + 1;
      tasks := tasks + [created];
    }

    /** The task with that id, or the driver's missing-row error. */
    method GetTaskByID(id: int) returns (r: Result<Task>)
      ensures r == if HasTask(tasks, id) then Ok(FindTask(tasks, id).value) else Err(ErrNoRows)
    {
      for i := 0 to |tasks|
        invariant FindTask(tasks[i..], id) == FindTask(tasks, id)
      {
        if tasks[i].ID == id {
          return Ok(tasks[i]);
        }
        assert tasks[i..][1..] == tasks[i + 1..];
      }
      return Err(ErrNoRows);
    }

    /** Overwrites the title, description, status and assignee of the task
        with `t`'s id; its project is kept. */
    method UpdateTask(t: Task) returns (r: Result<Task>)
      requires Valid()
      modifies this`tasks
      ensures Valid()
      ensures r.Ok? <==> HasTask(old(tasks), t.ID)
      ensures r.Ok? ==> r.value == t.(ProjectID := FindTask(old(tasks), t.ID).value.ProjectID)
      ensures r.Ok? ==> tasks == Overwrite(old(tasks), r.value)
      ensures r.Err? ==> r.error == ErrNoRows && tasks == old(tasks)
    {
      for i := 0 to |tasks|
        invariant FindTask(tasks[i..], t.ID) == FindTask(tasks, t.ID)
        invariant forall k :: 0 <= k < i ==> tasks[k].ID != t.ID
      {
        if tasks[i].ID == t.ID {
          var updated := t.(ProjectID := tasks[i].ProjectID);
          IdsAreUnique(tasks, nextID, i);
          OverwriteAt(tasks, i, updated);
          OverwriteKeepsNumbering(tasks, updated, nextID);
          tasks := tasks[i := updated];
          return Ok(updated);
        }
        assert tasks[i..][1..] == tasks[i + 1..];
      }
      return Err(ErrNoRows);
    }

    /** Appends one history entry. */
    method RecordActivity(a: TaskActivity)
      modifies this`history
      ensures history == old(history) + [a]
    {
      history := history + [a];
    }
  }

  class Service {
    const repo: TaskStore
    const projectRepo: ProjectRepo.FakeRepository
    /** Notifications are only sent when a hub is attached. */
    const hub: Ws.Hub?

    /** `NewService` (service.go:24-30) */
    constructor (repo: TaskStore, projectRepo: ProjectRepo.FakeRepository, hub: Ws.Hub?)
      ensures this.repo == repo && this.projectRepo == projectRepo && this.hub == hub
    {
      this.repo := repo;
      this.projectRepo := projectRepo;
      this.hub := hub;
    }

    /** The clients a broadcast reaches. */
    ghost function Audience(): set<Ws.Client>
      reads this, hub
    {
      if hub == null then {} else hub.clients.Values
    }

    ghost predicate HubValid()
      reads this, hub, if hub == null then {} else hub.Reachable()
    {
      hub != null ==> hub.Valid()
    }

    /** The broadcast both operations end with (service.go:63-66, 107-110):
        every connected client is offered the notification, and nothing
        happens without a hub. */
    method Announce(m: Ws.Payload)
      requires HubValid()
      modifies Audience()`Send
      ensures HubValid()
      ensures hub != null ==> forall u :: u in hub.clients ==> hub.clients[u].Send == Ws.Deliver(old(hub.clients[u].Send), m)
    {
      if hub != null {
        hub.Broadcast(m);
      }
    }

    /** `CreateTask` (service.go:32-69), as written. A refused creation
        stores, logs and announces nothing. An accepted one stores the task
        (service.go:45); the log entry then reads the assignee through its
        pointer (service.go:55), so a task created without an assignee panics
        there, still stored, unlogged and unannounced. With an assignee, a
        failed log is an error although the task stays stored, and nothing is
        announced; otherwise every connected client is offered
        `TASK_CREATED:<project>`. */
    method CreateTask(requesterID: int, t: Task, createFault: Option<string>, recordFault: Option<string>)
      returns (r: Outcome<Task>)
      requires repo.Valid() && HubValid()
      modifies repo, Audience()`Send
      ensures repo.Valid() && HubValid()
      ensures var refusal := CreateRefusal(projectRepo.projects, requesterID, t, createFault);
        && (refusal.Some? ==>
              && r == Returned(Err(refusal.value))
              && repo.tasks == old(repo.tasks) && repo.history == old(repo.history) && repo.nextID == old(repo.nextID))
        && (refusal.None? ==> repo.tasks == old(repo.tasks) + [t.(ID := old(repo.nextID))])
        && (refusal.None? && t.AssignedTo.None? ==> r == Panicked && repo.history == old(repo.history))
        && (refusal.None? && t.AssignedTo.Some? ==>
              && (recordFault.Some? ==>
                    r == Returned(Err("task created but history log failed: " + recordFault.value)) && repo.history == old(repo.history))
              && (recordFault.None? ==>
                    && r == Returned(Ok(t.(ID := old(repo.nextID))))
                    && repo.history == old(repo.history) + [TaskActivity(old(repo.nextID), requesterID, CreatedAction, CreatedDetails(t.AssignedTo.value))]))
      ensures r == Returned(Ok(t.(ID := old(repo.nextID)))) ==>
        ProjectRepo.Lookup(projectRepo.projects, t.ProjectID).value.OwnerID == requesterID
      ensures hub != null && r != Returned(Ok(t.(ID := old(repo.nextID)))) ==>
        forall u :: u in hub.clients ==> hub.clients[u].Send == old(hub.clients[u].Send)
      ensures hub != null && r == Returned(Ok(t.(ID := old(repo.nextID)))) ==> forall u :: u in hub.clients ==>
        hub.clients[u].Send == Ws.Deliver(old(hub.clients[u].Send), CreatedPayload(t.ProjectID))
    {
      var refusal := AuthorizeCreate(requesterID, t, createFault);
      if refusal.Some? {
        return Returned(Err(refusal.value));
      }
      r := StoreCreated(requesterID, t, recordFault);
      if r.Returned? && r.result.Ok? {
        Announce(CreatedPayload(t.ProjectID));
      }
    }

    /** The insert and the strict log of an authorised creation
        (service.go:44-60), as written: the task is stored under the next id
        whatever follows; without an assignee the log entry panics; otherwise
        CREATED is logged with the assignee unless the log fails, which fails
        the creation. */
    method StoreCreated(requesterID: int, t: Task, recordFault: Option<string>) returns (r: Outcome<Task>)
      requires repo.Valid()
      modifies repo`tasks, repo`nextID, repo`history
      ensures repo.Valid()
      ensures repo.tasks == old(repo.tasks) + [t.(ID := old(repo.nextID))]
      ensures t.AssignedTo.None? ==> r == Panicked && repo.history == old(repo.history)
      ensures t.AssignedTo.Some? && recordFault.Some? ==>
        r == Returned(Err("task created but history log failed: " + recordFault.value)) && repo.history == old(repo.history)
      ensures t.AssignedTo.Some? && recordFault.None? ==>
        && r == Returned(Ok(t.(ID := old(repo.nextID))))
        && repo.history == old(repo.history) + [TaskActivity(old(repo.nextID), requesterID, CreatedAction, CreatedDetails(t.AssignedTo.value))]
    {
      var createdTask := repo.CreateTask(t);
      if createdTask.AssignedTo.None? {
        return Panicked;
      }
      var details := CreatedDetails(createdTask.AssignedTo.value);
      if recordFault.Some? {
        return Returned(Err("task created but history log failed: " + recordFault.value));
      }
      repo.RecordActivity(TaskActivity(createdTask.ID, requesterID, CreatedAction, details));
      return Returned(Ok(createdTask));
    }

    /** `CreateTask` with the log entry built from the optional assignee
        (`CheckedCreatedDetails`): every accepted creation, assigned or not,
        is stored, then logged, then announced, and a failed log fails it
        with the task still stored. */
    method CreateTaskChecked(requesterID: int, t: Task, createFault: Option<string>, recordFault: Option<string>)
      returns (r: Result<Task>)
      requires repo.Valid() && HubValid()
      modifies repo, Audience()`Send
      ensures repo.Valid() && HubValid()
      ensures var refusal := CreateRefusal(projectRepo.projects, requesterID, t, createFault);
        && (refusal.Some? ==>
              && r == Err(refusal.value)
              && repo.tasks == old(repo.tasks) && repo.history == old(repo.history) && repo.nextID == old(repo.nextID))
        && (refusal.None? ==>
              && repo.tasks == old(repo.tasks) + [t.(ID := old(repo.nextID))]
              && (recordFault.Some? ==> r == Err("task created but history log failed: " + recordFault.value) && repo.history == old(repo.history))
              && (recordFault.None? ==>
                    && r == Ok(t.(ID := old(repo.nextID)))
                    && repo.history == old(repo.history) + [TaskActivity(old(repo.nextID), requesterID, CreatedAction, CheckedCreatedDetails(t.AssignedTo))]))
      ensures r.Ok? ==> ProjectRepo.Lookup(projectRepo.projects, t.ProjectID).value.OwnerID == requesterID
      ensures hub != null && r.Err? ==> forall u :: u in hub.clients ==> hub.clients[u].Send == old(hub.clients[u].Send)
      ensures hub != null && r.Ok? ==> forall u :: u in hub.clients ==>
        hub.clients[u].Send == Ws.Deliver(old(hub.clients[u].Send), CreatedPayload(t.ProjectID))
    {
      var refusal := AuthorizeCreate(requesterID, t, createFault);
      if refusal.Some? {
        return Err(refusal.value);
      }
      var createdTask := repo.CreateTask(t);
      if recordFault.Some? {
        return Err("task created but history log failed: " + recordFault.value);
      }
      repo.RecordActivity(TaskActivity(createdTask.ID, requesterID, CreatedAction, CheckedCreatedDetails(createdTask.AssignedTo)));
      Announce(CreatedPayload(t.ProjectID));
      return Ok(createdTask);
    }

    /** The checks `CreateTask` makes before it writes (service.go:33-48):
        the project lookup, the ownership check, then the insert's own
        failure. It changes nothing. */
    method AuthorizeCreate(requesterID: int, t: Task, createFault: Option<string>) returns (refusal: Option<string>)
      ensures refusal == CreateRefusal(projectRepo.projects, requesterID, t, createFault)
    {
      var project := projectRepo.GetByID(t.ProjectID);
      if project.Err? {
        return Some("failed to fetch project: " + project.error);
      }
      if project.value.OwnerID != requesterID {
        return Some(ErrUnauthorized);
      }
      if createFault.Some? {
        return Some("failed to create task: " + createFault.value);
      }
      return None;
    }

    /** The checks `UpdateTask` makes before it writes (service.go:72-96):
        the stored task, then its project, then owner or assignee, then the
        write's own failure. It changes nothing. */
    method Authorize(requesterID: int, t: Task, updateFault: Option<string>) returns (refusal: Option<string>)
      ensures refusal == UpdateRefusal(repo.tasks, projectRepo.projects, requesterID, t, updateFault)
    {
      var existingTask := repo.GetTaskByID(t.ID);
      if existingTask.Err? {
        return Some("task not found: " + existingTask.error);
      }
      var project := projectRepo.GetByID(existingTask.value.ProjectID);
      if project.Err? {
        return Some("failed to verify project ownership: " + project.error);
      }
      var isOwner := project.value.OwnerID == requesterID;
      var isAssignee := existingTask.value.AssignedTo.Some? && existingTask.value.AssignedTo.value == requesterID;
      if !isOwner && !isAssignee {
        return Some(ErrNotOwnerOrAssignee);
      }
      if updateFault.Some? {
        return Some("failed to update task: " + updateFault.value);
      }
      return None;
    }

    /** The write and the log of an authorised update (service.go:93-105):
        the stored task is overwritten, keeping its project, and UPDATED is
        logged with the new status unless the log fails. */
    method ApplyUpdate(requesterID: int, t: Task, recordFault: Option<string>) returns (updatedTask: Task)
      requires repo.Valid() && HubValid() && HasTask(repo.tasks, t.ID)
      modifies repo`tasks, repo`history
      ensures repo.Valid() && HubValid()
      ensures updatedTask == t.(ProjectID := FindTask(old(repo.tasks), t.ID).value.ProjectID)
      ensures repo.tasks == Overwrite(old(repo.tasks), updatedTask)
      ensures repo.history == old(repo.history) +
        (if recordFault.Some? then [] else [TaskActivity(t.ID, requesterID, UpdatedAction, UpdatedDetails(requesterID, t.Status))])
    {
      var updated := repo.UpdateTask(t);
      assert updated.Ok?;
      updatedTask := updated.value;
      if recordFault.None? {
        repo.RecordActivity(TaskActivity(updatedTask.ID, requesterID, UpdatedAction, UpdatedDetails(requesterID, updatedTask.Status)));
      }
    }

    /** `UpdateTask` (service.go:71-113). A refused update changes, logs and
        announces nothing. An accepted one overwrites the stored task (keeping
        its project), tries to log UPDATED with the new status (a failure of
        that log is ignored), offers `TASK_UPDATED:<project>:<task>` to every
        connected client when a hub is attached, and returns the updated
        task. */
    method UpdateTask(requesterID: int, t: Task, updateFault: Option<string>, recordFault: Option<string>)
      returns (r: Result<Task>)
      requires repo.Valid() && HubValid()
      modifies repo, Audience()`Send
      ensures repo.Valid() && HubValid()
      ensures var refusal := UpdateRefusal(old(repo.tasks), projectRepo.projects, requesterID, t, updateFault);
        && (refusal.Some? ==> r == Err(refusal.value) && repo.tasks == old(repo.tasks) && repo.history == old(repo.history))
        && (refusal.None? <==> r.Ok?)
      ensures r.Ok? ==>
        var stored := FindTask(old(repo.tasks), t.ID).value;
        && r.value == t.(ProjectID := stored.ProjectID)
        && MayUpdate(ProjectRepo.Lookup(projectRepo.projects, stored.ProjectID).value.OwnerID, stored.AssignedTo, requesterID)
        && repo.tasks == Overwrite(old(repo.tasks), r.value)
        && repo.history == old(repo.history) +
             (if recordFault.Some? then [] else [TaskActivity(t.ID, requesterID, UpdatedAction, UpdatedDetails(requesterID, t.Status))])
      ensures hub != null && r.Err? ==> forall u :: u in hub.clients ==> hub.clients[u].Send == old(hub.clients[u].Send)
      ensures hub != null && r.Ok? ==> forall u :: u in hub.clients ==>
        hub.clients[u].Send == Ws.Deliver(old(hub.clients[u].Send), UpdatedPayload(r.value.ProjectID, r.value.ID))
    {
      var refusal := Authorize(requesterID, t, updateFault);
      if refusal.Some? {
        return Err(refusal.value);
      }
      var updatedTask := ApplyUpdate(requesterID, t, recordFault);
      Announce(UpdatedPayload(updatedTask.ProjectID, updatedTask.ID));
      return Ok(updatedTask);
    }
  }
}
