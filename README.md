# Project/task/user tracker: stores and services in Dafny

This project models the persistence and service layer of a small console
tracker of projects, tasks and users (`ProjectManagementSystem.Console`).

- **Entities** (`models.dfy`, module `Models`). A `ProjectTask`, a `User` and a
  `Project` are each an `Entity<D>`: an `Int32` id plus the record `D` of the
  other fields (`TaskInfo`, `UserInfo`, `ProjectInfo`). The enums are
  `ProjectTaskStatus` (ToDo, InProgress, Done) and `UserRole` (Employee,
  Manager). Timestamps are abstract clock readings, and the task's
  `UpdatedAt` is an `Option`. `Error` holds the three exceptions the core
  raises: `KeyNotFoundException`, `ArgumentException` and
  `InvalidOperationException`.
- **Snapshot queries** (`snapshots.dfy`, module `Snapshots`). These are the
  LINQ and `List` operations the stores use, as pure functions over
  sequences: `First` (`FirstOrDefault`), `FirstIndex` (`IndexOf(x)` is `FirstIndex(s, IsEqualTo(x))`), `Filter`
  (`Where`), `MaxId` (`Max`) and `RemoveAt` (`Remove`). `NextId` is the id
  rule `Count > 0 ? Max(ids) + 1 : 1`, with C#'s unchecked 32-bit addition.
  The module also holds the lemmas about id uniqueness and id reuse.
- **Stores** (`repositories.dfy`, module `Repositories`).
  `JsonTaskRepository`, `JsonUserRepository` and `JsonProjectRepository`
  follow identical rules, so one generic class `Store<D>` models them. It has
  a `seq` field `items` (the in-memory list) and a ghost field `persisted`
  (the backing file). Every mutation rewrites the file with the whole
  snapshot, so `Valid()` states `persisted == items`. The task store's
  `GetByProjectId` and `GetByUserId` and the user store's `GetByUsername` are
  functions over a store instance. One generic class replaces the three
  source classes; the rows below cite the task repository. The same steps sit
  in `JsonUserRepository.cs` (lines 44, 59-60, 67-74, 81-89) and in
  `JsonProjectRepository.cs` (lines 44, 49, 54-55, 62-69, 76-84).
- **Services** (`task_service.dfy`, `project_service.dfy`, `auth_service.dfy`).
  Each service is a class holding references to the stores it uses.
  `TaskService` modifies only the task store. `ProjectService` and
  `AuthService` each modify only their own store.
- **Scenarios** (`scenario.dfy`). These client methods rely on the
  methods' contracts, never on their bodies; the functions they call
  (`Authenticate`, `GetById`, `GetByUsername`) are transparent as all Dafny
  functions are.
  - `Walkthrough` starts from empty stores. `CreateAlphaAndBob` creates
    project `Alpha` and registers user `bob`, and each gets id 1. Task 1 is
    then created as `ToDo` and moved to `InProgress` with its update time.
    Updating the status of unknown task 99 returns `false` and changes
    nothing.
  - `RegisterAndLogin` starts from an empty user store. It registers `bob`,
    a second `bob` is refused, and logging in works with the right password
    but not with an unknown name.
  - `CreateTasks` starts from stores loaded with one project and one user.
    The first task gets id 1, and a task for an unknown assignee is refused
    with nothing stored.
  - `ReuseDeletedId` starts from a project store loaded with projects 1
    and 2. It deletes 2, and the next project created gets id 2 again.

Inputs the model cannot compute are parameters:
- the current time `now` (`DateTime.UtcNow`);
- the contents of the backing file when a store is constructed;
- the password hash, a function `hash: string -> string` given to `AuthService`.

The code follows these rules, some of which are easy to miss:
- `Register` does not check that the username is non-empty.
- `UpdateProject` rejects a null name as well as an empty or whitespace one.
- `CreateTask` checks the project before the assignee, so a missing project is
  the error reported when both are missing.
- Deleting a project or user neither checks nor removes the tasks that refer
  to it. Those tasks keep dangling references.
- Ids come from `Max + 1`, so deleted ids can be reused. With unique positive
  ids, after the entity with the largest id `m` is deleted, the next create
  gives `m` again exactly when `m` is 1 or `m - 1` is still in use. So `[1, 2]` gives 2 again, but
  `[1, 3]` gives 2 (`Snapshots.DeleteMaxThenCreate`).

## Model

| member | source | states |
|---|---|---|
| `Models.AddInt32` | ProjectManagementSystem.Console/Repositories/JsonTaskRepository.cs:64 | the `+ 1` of the id rule is C#'s unchecked add: the true sum when it fits in 32 bits, and always congruent to it modulo 2^32 |
| `Models.IsNullOrWhiteSpace` | ProjectManagementSystem.Console/Services/ProjectService.cs:20 | `string.IsNullOrWhiteSpace`, the project name check of `CreateProjectAsync` and, at line 46, of `UpdateProjectAsync`: true exactly for null, the empty string, or a string whose every character is in .NET's `char.IsWhiteSpace` set (U+0009..U+000D, U+0020, U+0085, U+00A0, U+1680, U+2000..U+200A, U+2028, U+2029, U+202F, U+205F, U+3000) |
| `Snapshots.FirstIndex` | ProjectManagementSystem.Console/Repositories/JsonTaskRepository.cs:78 | `None` exactly when no element satisfies the predicate; otherwise an index whose element satisfies it and before which none does |
| `Snapshots.First` | ProjectManagementSystem.Console/Repositories/JsonTaskRepository.cs:44 | `FirstOrDefault`: `None` exactly when nothing matches, otherwise the element at the first matching index |
| `Snapshots.Filter` | ProjectManagementSystem.Console/Repositories/JsonTaskRepository.cs:54 | `Where`: every element returned matches and comes from the input, every matching input element is returned, and the result is no longer than the input |
| `Snapshots.RemoveAt` | ProjectManagementSystem.Console/Repositories/JsonTaskRepository.cs:92 | `List.Remove` at a position: one element shorter, earlier elements unchanged, later ones shifted down by one, order kept |
| `Snapshots.MaxId` | ProjectManagementSystem.Console/Repositories/JsonTaskRepository.cs:64 | `Max(t => t.Id)` is at least every id and is itself an id of the snapshot |
| `Snapshots.NextId` | ProjectManagementSystem.Console/Repositories/JsonTaskRepository.cs:64 | without overflow, the new id is larger than every existing id and is `1` for an empty store, otherwise one more than an existing id; at `int.MaxValue` it wraps to `int.MinValue` |
| `Snapshots.IndexOfFirst` | ProjectManagementSystem.Console/Repositories/JsonTaskRepository.cs:72-79 | `IndexOf` of the entity found by `FirstOrDefault` is the first position whose id matches, so `Update` and `Delete` act on the first id match |
| `Snapshots.FirstIndexAppend` | ProjectManagementSystem.Console/Services/AuthService.cs:43 | appending an element changes the first match only when nothing in the old snapshot matched, and then the match is the appended element |
| `Snapshots.FilterAppend` | ProjectManagementSystem.Console/Repositories/JsonTaskRepository.cs:54-59 | `Where` distributes over concatenation, so the filtered tasks keep snapshot order and multiplicity |
| `Snapshots.AppendFreshPreservesUnique` | ProjectManagementSystem.Console/Repositories/JsonTaskRepository.cs:64-65 | if ids are unique and the id does not overflow, they stay unique after appending an entity with the next id |
| `Snapshots.ReplacePreservesUnique` | ProjectManagementSystem.Console/Repositories/JsonTaskRepository.cs:78-79 | replacing an entity in place by one with the same id keeps ids unique |
| `Snapshots.RemovePreservesUnique` | ProjectManagementSystem.Console/Repositories/JsonTaskRepository.cs:86-94 | with unique ids, removing an entity keeps ids unique and its id is then absent |
| `Snapshots.RemoveMaxLeavesSmaller` | ProjectManagementSystem.Console/Repositories/JsonTaskRepository.cs:92 | with unique ids, after removing the entity whose id is the maximum, every remaining id is smaller |
| `Snapshots.NextIdBelow` | ProjectManagementSystem.Console/Repositories/JsonTaskRepository.cs:64 | on a non-empty snapshot whose every id is below `m`, the next id is at most `m`, and equals `m` exactly when `m - 1` is in use |
| `Snapshots.RemoveKeepsOtherIds` | ProjectManagementSystem.Console/Repositories/JsonTaskRepository.cs:92 | removing one position keeps exactly the ids other than the removed entity's |
| `Snapshots.DeleteMaxThenCreate` | ProjectManagementSystem.Console/Repositories/JsonProjectRepository.cs:54 | with unique positive ids, removing the entity that holds the maximum id `m` and creating again yields at most `m`, and exactly `m` if and only if `m` is 1 or `m - 1` is in use (a deleted id is reused) |
| `Repositories.Store.constructor` | ProjectManagementSystem.Console/Repositories/JsonTaskRepository.cs:16-34 | the snapshot is the list loaded from the backing file, or empty when there is none, and file and snapshot agree |
| `Repositories.Store.GetById` | ProjectManagementSystem.Console/Repositories/JsonTaskRepository.cs:42-45 | `None` exactly when no entity has the id; otherwise the entity at the first position with that id; a function, so there are no side effects |
| `Repositories.Store.GetAll` | ProjectManagementSystem.Console/Repositories/JsonTaskRepository.cs:47-50 | the whole snapshot in insertion order |
| `Repositories.Store.Create` | ProjectManagementSystem.Console/Repositories/JsonTaskRepository.cs:62-68 | the entity gets `NextId` of the old snapshot and is appended, with earlier elements unchanged and the file rewritten; the id is fresh, and uniqueness and positive ids are preserved, if there is no overflow |
| `Repositories.Store.Update` | ProjectManagementSystem.Console/Repositories/JsonTaskRepository.cs:70-82 | an absent id gives `KeyNotFound` and no change; a present id replaces the first match at its index, with length and all other positions unchanged; uniqueness and positive ids are preserved |
| `Repositories.Store.Delete` | ProjectManagementSystem.Console/Repositories/JsonTaskRepository.cs:84-95 | returns whether the id was present; if absent nothing changes, otherwise exactly the first match is removed, the rest keep their order, and with unique ids the id is gone; positive ids stay positive |
| `Repositories.GetByProjectId` | ProjectManagementSystem.Console/Repositories/JsonTaskRepository.cs:52-55 | returns exactly the stored tasks whose `ProjectId` matches |
| `Repositories.GetByUserId` | ProjectManagementSystem.Console/Repositories/JsonTaskRepository.cs:57-60 | returns exactly the stored tasks whose `AssignedToUserId` matches |
| `Repositories.GetByUsername` | ProjectManagementSystem.Console/Repositories/JsonUserRepository.cs:47-50 | `None` exactly when no user has that exact (ordinal, case-sensitive) username, otherwise the first such user |
| `Tasks.TaskService.constructor` | ProjectManagementSystem.Console/Services/TaskService.cs:16-24 | the service only stores the task, project and user repositories it is given |
| `Tasks.TaskService.CreateTask` | ProjectManagementSystem.Console/Services/TaskService.cs:26-49 | a missing project gives `KeyNotFound(Project)`, checked first; a missing assignee gives `KeyNotFound(User)`; on failure the task store is unchanged; on success it stores a `ToDo` task with the given fields, no `UpdatedAt` and the next id, appended; title and description are not validated; the project and user stores never change |
| `Tasks.TaskService.GetTask` | ProjectManagementSystem.Console/Services/TaskService.cs:51-54 | the task store's id lookup |
| `Tasks.TaskService.GetTasksByProject` | ProjectManagementSystem.Console/Services/TaskService.cs:56-59 | the task store's project filter |
| `Tasks.TaskService.GetTasksByUser` | ProjectManagementSystem.Console/Services/TaskService.cs:61-64 | the task store's assignee filter |
| `Tasks.TaskService.UpdateTaskStatus` | ProjectManagementSystem.Console/Services/TaskService.cs:66-78 | returns `true` exactly when the id exists, whatever the old status; an unknown id changes nothing; otherwise only the first matching task changes, status becoming exactly `newStatus` and `UpdatedAt` becoming `now`; the project and user stores are unchanged |
| `Tasks.TaskService.UpdateTask` | ProjectManagementSystem.Console/Services/TaskService.cs:80-91 | an unknown id gives `false` and no change; otherwise the replacement, stamped with `now`, takes the first matching position and the result is `true` |
| `Tasks.TaskService.DeleteTask` | ProjectManagementSystem.Console/Services/TaskService.cs:93-96 | the task store's delete: `true` exactly when the id existed, and then exactly that task is removed |
| `Projects.ProjectService.constructor` | ProjectManagementSystem.Console/Services/ProjectService.cs:13-16 | the service only stores the project repository it is given |
| `Projects.ProjectService.CreateProject` | ProjectManagementSystem.Console/Services/ProjectService.cs:18-32 | a null, empty or whitespace-only name gives `InvalidArgument("name")` and adds nothing; otherwise the name and description are stored under the next id, appended |
| `Projects.ProjectService.GetProject` | ProjectManagementSystem.Console/Services/ProjectService.cs:34-37 | the project store's id lookup |
| `Projects.ProjectService.GetAllProjects` | ProjectManagementSystem.Console/Services/ProjectService.cs:39-42 | the project store's whole snapshot |
| `Projects.ProjectService.UpdateProject` | ProjectManagementSystem.Console/Services/ProjectService.cs:44-60 | a null or whitespace name gives `InvalidArgument("project")`; otherwise the result is `Success(false)` for an unknown id and `Success(true)` for a known one; only `true` changes the store, replacing the project at its position |
| `Projects.ProjectService.DeleteProject` | ProjectManagementSystem.Console/Services/ProjectService.cs:62-65 | exactly the store's delete; tasks are not touched |
| `Auth.AuthService.constructor` | ProjectManagementSystem.Console/Services/AuthService.cs:14-17 | the service only stores the user repository it is given, together with the password hash function |
| `Auth.AuthService.Authenticate` | ProjectManagementSystem.Console/Services/AuthService.cs:19-26 | returns the user found by username exactly when its stored hash equals `hash(password)`; an unknown name and a wrong password both give `None`; a function, so the store is unchanged |
| `Auth.AuthService.Register` | ProjectManagementSystem.Console/Services/AuthService.cs:28-44 | an existing username gives `InvalidOperation` and no new user; otherwise the user with `hash(password)` and the role is appended under the next id, and `Authenticate` with the same name and password then returns it; usernames stay unique |
| `Auth.AuthService.ChangePassword` | ProjectManagementSystem.Console/Services/AuthService.cs:46-59 | `true` exactly when the user exists and `hash(oldPassword)` equals the stored hash; otherwise nothing changes; on success only that user's hash changes, to `hash(newPassword)` |
| `Auth.AuthenticateWithUniqueUsernames` | ProjectManagementSystem.Console/Services/AuthService.cs:21-25 | when usernames are unique, login succeeds exactly when some user has that name and the hash of the password |

## Left out

- File I/O: `LoadData` and `SaveData` read and write JSON with `System.Text.Json`. The file's content is the ghost `persisted` copy, and a store's constructor takes the loaded list as a parameter. The JSON format, its round trip and I/O failures (`PersistenceError`) are not modelled.
- `async`/`await` and `Task.FromResult` add no behaviour, so the operations are plain synchronous members.
- `DateTime.UtcNow` is the parameter `now`. That a task's update time is later than its creation time depends on the clock and is not stated.
- SHA-256 and Base64 in `HashPassword` are the uninterpreted function `hash`. Nothing about the cryptography is specified.
- Reference aliasing: `GetByIdAsync` and `GetAllAsync` hand out the stored objects and the live list, and `TaskService` mutates a fetched task before `UpdateAsync`. `GetByProjectIdAsync` and `GetByUserIdAsync` return a deferred `Where` over the live `_tasks`, so enumerating the result later shows later creates and deletes. The model uses values and replaces by id. A caller mutating a returned object without calling `Update` is not modelled, and a filter result is fixed when it is produced.
- C# `null`: only `Project.Name` is nullable, as it is the only string the core tests for null. Null entity arguments, null usernames or passwords, and the exceptions they raise are not modelled.
- Strings are sequences of Unicode scalar values, not UTF-16 code units. Ordinal equality and `char.IsWhiteSpace` agree on both.
- `Project.Tasks` is never populated and is not modelled.
- The interface files and `Program.cs` (the console menu, password masking and role gating) are not part of this model.
- Repositories.GetByProjectId: its own contract states membership only. Snapshot order and multiplicity are stated by `Snapshots.FilterAppend` about the `Filter` it returns, and `CreateTask` uses that lemma to show a new task is listed last.
- Repositories.GetByUserId: the same, for the assignee filter.
