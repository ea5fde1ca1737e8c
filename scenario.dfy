/**
 * Clients of the services, checked from the methods' contracts alone. Some
 * start from empty stores; others start from stores constructed with given
 * file contents.
 */
module Scenario {
  import opened Wrappers
  import opened Models
  import opened Snapshots
  import opened Repositories
  import opened Tasks
  import opened Projects
  import opened Auth

  /**
   * From an empty user store: `bob` registers and gets id 1, a second
   * `bob` is refused, and logging in works with his password and not with
   * an unknown name.
   */
  method RegisterAndLogin(hash: string -> string)
  {
    var userStore := new Store<UserInfo>(UserKind, []);
    var authService := new AuthService(userStore, hash);
    var bob := authService.Register("bob", "secret", Employee, 11);
    assert bob == Success(Entity(1, UserInfo("bob", hash("secret"), Employee, 11)));
    var again := authService.Register("bob", "other", Manager, 12);
    assert again == Failure(InvalidOperation) && |userStore.items| == 1;
    assert authService.Authenticate("bob", "secret") == Some(bob.value);
    assert authService.Authenticate("alice", "secret") == None;
  }

  /**
   * From a project store loaded with one project (id 1), a user store
   * loaded with one user (id 1) and an empty task store: the first task
   * gets id 1 and status `ToDo`; a task for unknown assignee 7 is refused
   * with `KeyNotFound(UserKind, 7)` and nothing more is stored.
   */
  method CreateTasks(alpha: ProjectInfo, bob: UserInfo)
  {
    var projectStore := new Store<ProjectInfo>(ProjectKind, [Entity(1, alpha)]);
    var userStore := new Store<UserInfo>(UserKind, [Entity(1, bob)]);
    var taskStore := new Store<TaskInfo>(TaskKind, []);
    var taskService := new TaskService(taskStore, projectStore, userStore);

    assert projectStore.items[0].id == 1 && userStore.items[0].id == 1;
    var task := taskService.CreateTask(1, "Write spec", "", 1, 13);
    assert task == Success(Entity(1, TaskInfo(1, "Write spec", "", ToDo, 1, 13, None)));
    var orphan := taskService.CreateTask(1, "", "", 7, 14);
    assert orphan == Failure(KeyNotFound(UserKind, 7)) && |taskStore.items| == 1;
  }

  /**
   * From empty stores: project `Alpha` and user `bob` are created through
   * their services and both get id 1. Returns the task service over the
   * three stores.
   */
  method CreateAlphaAndBob(hash: string -> string) returns (taskService: TaskService)
    ensures fresh(taskService.tasks) && fresh(taskService.projects) && fresh(taskService.users)
    ensures taskService.Valid()
    ensures taskService.projects.items == [Entity(1, ProjectInfo(Some("Alpha"), "", 10))]
    ensures taskService.users.items == [Entity(1, UserInfo("bob", hash("secret"), Employee, 11))]
    ensures taskService.tasks.items == []
  {
    var projectStore := new Store<ProjectInfo>(ProjectKind, []);
    var userStore := new Store<UserInfo>(UserKind, []);
    var taskStore := new Store<TaskInfo>(TaskKind, []);
    var projectService := new ProjectService(projectStore);
    var authService := new AuthService(userStore, hash);

    assert !IsWhiteSpace("Alpha"[0]);
    var alpha := projectService.CreateProject(Some("Alpha"), "", 10);
    var bob := authService.Register("bob", "secret", Employee, 11);
    taskService := new TaskService(taskStore, projectStore, userStore);
  }

  /**
   * Continuing from `CreateAlphaAndBob`: task 1 is created as `ToDo` for
   * project 1 and user 1, moved to `InProgress` with its update time, and
   * an update of unknown task 99 returns `false` and changes nothing.
   */
  method Walkthrough(hash: string -> string)
  {
    var taskService := CreateAlphaAndBob(hash);
    var taskStore := taskService.tasks;
    assert taskService.projects.items[0].id == 1 && taskService.users.items[0].id == 1;

    var task := taskService.CreateTask(1, "Write spec", "", 1, 12);
    ghost var created := Entity(1, TaskInfo(1, "Write spec", "", ToDo, 1, 12, None));
    assert task == Success(created) && taskStore.items == [created];

    assert taskStore.items[0].id == 1;
    var ok := taskService.UpdateTaskStatus(1, InProgress, 13);
    assert ok && taskStore.items == [Entity(1, TaskInfo(1, "Write spec", "", InProgress, 1, 12, Some(13)))];
    ghost var snapshot := taskStore.items;
    var missing := taskService.UpdateTaskStatus(99, Done, 14);
    assert !missing && taskStore.items == snapshot;
  }

  /**
   * From a project store loaded with projects 1 and 2: deleting 2 and
   * creating a project again reuses id 2.
   */
  method ReuseDeletedId(alpha: ProjectInfo, beta: ProjectInfo)
  {
    var projectStore := new Store<ProjectInfo>(ProjectKind, [Entity(1, alpha), Entity(2, beta)]);
    var projectService := new ProjectService(projectStore);
    assert projectStore.items[1].id == 2;
    assert !IdIs<ProjectInfo>(2)(projectStore.items[0]);
    var deleted := projectService.DeleteProject(2);
    assert deleted && projectStore.items == [Entity(1, alpha)];
    assert !IsWhiteSpace("Gamma"[0]);
    var gamma := projectService.CreateProject(Some("Gamma"), "", 12);
    assert gamma.value.id == 2;
  }
}
