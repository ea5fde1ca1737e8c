/**
 * Services/TaskService.cs: task creation with referential checks against the
 * project and user stores, status and full updates, and pass-through reads.
 */
module Tasks {
  import opened Wrappers
  import opened Models
  import opened Snapshots
  import opened Repositories

  class TaskService {
    const tasks: TaskRepository
    const projects: ProjectRepository
    const users: UserRepository

    ghost predicate Valid()
      reads tasks, projects, users
    {
      tasks.Valid() && projects.Valid() && users.Valid()
    }

    constructor (tasks: TaskRepository, projects: ProjectRepository, users: UserRepository)
      ensures this.tasks == tasks && this.projects == projects && this.users == users
    {
      this.tasks := tasks;
      this.projects := projects;
      this.users := users;
    }

    /**
     * `CreateTaskAsync`: the project is looked up first, then the assignee;
     * a missing one raises `KeyNotFoundException` before any task is stored.
     * Otherwise a `ToDo` task with no update time is created in the task
     * store. Title and description are not validated.
     */
    method CreateTask(projectId: Int32, title: string, description: string,
                      assignedToUserId: Int32, now: Timestamp)
      returns (r: Result<ProjectTask, Error>)
      requires Valid()
      modifies tasks
      ensures Valid()
      ensures unchanged(projects, users)
      ensures !HasId(projects.items, projectId) ==>
                r == Failure(KeyNotFound(ProjectKind, projectId)) &&
                tasks.items == old(tasks.items)
      ensures HasId(projects.items, projectId) && !HasId(users.items, assignedToUserId) ==>
                r == Failure(KeyNotFound(UserKind, assignedToUserId)) &&
                tasks.items == old(tasks.items)
      ensures HasId(projects.items, projectId) && HasId(users.items, assignedToUserId) ==>
                r == Success(Entity(NextId(old(tasks.items)),
                                    TaskInfo(projectId, title, description, ToDo,
                                             assignedToUserId, now, None))) &&
                tasks.items == old(tasks.items) + [r.value]
      ensures r.Success? ==>
                GetTasksByProject(projectId) == old(GetTasksByProject(projectId)) + [r.value] &&
                GetTasksByUser(assignedToUserId) == old(GetTasksByUser(assignedToUserId)) + [r.value]
    {
      var project := projects.GetById(projectId);
      if project.None? {
        return Failure(KeyNotFound(ProjectKind, projectId));
      }
      var user := users.GetById(assignedToUserId);
      if user.None? {
        return Failure(KeyNotFound(UserKind, assignedToUserId));
      }
      var task := Entity(0, TaskInfo(projectId, title, description, ToDo, assignedToUserId, now, None));
      ghost var before := tasks.items;
      var created := tasks.Create(task);
      FilterAppend(before, [created], InProject(projectId));
      FilterAppend(before, [created], AssignedTo(assignedToUserId));
      r := Success(created);
    }

    /** `GetTaskAsync`: the task store's lookup by id. */
    function GetTask(id: int): (r: Option<ProjectTask>)
      reads tasks
      ensures r == tasks.GetById(id)
    {
      tasks.GetById(id)
    }

    /** `GetTasksByProjectAsync`: the task store's project filter. */
    function GetTasksByProject(projectId: int): (r: seq<ProjectTask>)
      reads tasks
      ensures r == GetByProjectId(tasks, projectId)
    {
      GetByProjectId(tasks, projectId)
    }

    /** `GetTasksByUserAsync`: the task store's assignee filter. */
    function GetTasksByUser(userId: int): (r: seq<ProjectTask>)
      reads tasks
      ensures r == GetByUserId(tasks, userId)
    {
      GetByUserId(tasks, userId)
    }

    /**
     * `UpdateTaskStatusAsync`: `false` and no change for an unknown id.
     * Otherwise any status may follow any other: the first task with the id
     * gets exactly `newStatus` and update time `now`, in place, and the
     * result is `true`.
     */
    method UpdateTaskStatus(taskId: int, newStatus: ProjectTaskStatus, now: Timestamp)
      returns (ok: bool)
      requires Valid()
      modifies tasks
      ensures Valid()
      ensures unchanged(projects, users)
      ensures ok == old(HasId(tasks.items, taskId))
      ensures !ok ==> tasks.items == old(tasks.items)
      ensures ok ==>
                var k := old(FirstIndex(tasks.items, IdIs(taskId))).value;
                var t := old(tasks.items[k]);
                tasks.items == old(tasks.items)[k := t.(data := t.data.(status := newStatus, updatedAt := Some(now)))]
    {
      var task := tasks.GetById(taskId);
      if task.None? {
        return false;
      }
      var t := task.value;
      var updated := t.(data := t.data.(status := newStatus, updatedAt := Some(now)));
      var _ := tasks.Update(updated);
      ok := true;
    }

    /**
     * `UpdateTaskAsync`: `false` and no change when no task has the id;
     * otherwise the given task, stamped with update time `now`, replaces the
     * first task with its id, and the result is `true`. The project and
     * assignee references are not checked again.
     */
    method UpdateTask(task: ProjectTask, now: Timestamp) returns (ok: bool)
      requires Valid()
      modifies tasks
      ensures Valid()
      ensures unchanged(projects, users)
      ensures ok == old(HasId(tasks.items, task.id))
      ensures !ok ==> tasks.items == old(tasks.items)
      ensures ok ==>
                tasks.items == old(tasks.items)[old(FirstIndex(tasks.items, IdIs(task.id))).value :=
                                                 task.(data := task.data.(updatedAt := Some(now)))]
    {
      var existing := tasks.GetById(task.id);
      if existing.None? {
        return false;
      }
      var _ := tasks.Update(task.(data := task.data.(updatedAt := Some(now))));
      ok := true;
    }

    /** `DeleteTaskAsync`: the task store's delete. */
    method DeleteTask(id: int) returns (removed: bool)
      requires Valid()
      modifies tasks
      ensures Valid()
      ensures unchanged(projects, users)
      ensures removed == old(HasId(tasks.items, id))
      ensures !removed ==> tasks.items == old(tasks.items)
      ensures removed ==> tasks.items == RemoveAt(old(tasks.items), old(FirstIndex(tasks.items, IdIs(id))).value)
    {
      removed := tasks.Delete(id);
    }
  }
}
