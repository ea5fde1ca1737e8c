/**
 * The entity stores (Repositories/JsonTaskRepository.cs,
 * JsonUserRepository.cs, JsonProjectRepository.cs). The three classes share
 * one rule set, so one generic class models them; the task store's filters
 * and the user store's username lookup are functions on its instances.
 */
module Repositories {
  import opened Wrappers
  import opened Models
  import opened Snapshots

  class Store<D(==)> {
    /** The entity the store holds, named in its `KeyNotFoundException`. */
    const kind: EntityKind
    /** The in-memory snapshot (`_tasks`, `_users`, `_projects`). */
    var items: seq<Entity<D>>
    /** The backing file's content: `SaveData` rewrites it with the whole snapshot. */
    ghost var persisted: seq<Entity<D>>

    /** Every operation returns with the file holding the full snapshot. */
    ghost predicate Valid()
      reads this
    {
      persisted == items
    }

    /**
     * `LoadData`: the snapshot is the list read from the backing file, or
     * the empty list (then saved) when there is no file.
     */
    constructor (kind: EntityKind, loaded: seq<Entity<D>>)
      ensures Valid()
      ensures this.kind == kind && items == loaded
    {
      this.kind := kind;
      items := loaded;
      persisted := loaded;
    }

    /** `GetByIdAsync`: the first entity with that id, or `None`. */
    function GetById(id: int): (r: Option<Entity<D>>)
      reads this
      ensures r.None? <==> !HasId(items, id)
      ensures r.Some? ==> r.value.id == id
      ensures r.Some? ==> FirstIndex(items, IdIs(id)).Some? &&
                          r.value == items[FirstIndex(items, IdIs(id)).value]
    {
      var r := First(items, IdIs(id));
      assert r.Some? ==> IdIs<D>(id)(r.value);
      assert r.None? ==> forall i :: 0 <= i < |items| ==> !IdIs<D>(id)(items[i]);
      r
    }

    /** `GetAllAsync`: the whole snapshot in insertion order. */
    function GetAll(): (r: seq<Entity<D>>)
      reads this
      ensures r == items
    {
      items
    }

    /**
     * `CreateAsync`: sets the id to `NextId` of the snapshot, appends the
     * entity and saves. A fresh id keeps ids unique.
     */
    method Create(e: Entity<D>) returns (created: Entity<D>)
      requires Valid()
      modifies this
      ensures Valid()
      ensures created == e.(id := NextId(old(items)))
      ensures items == old(items) + [created]
      ensures old(CanAssignFreshId(items)) ==> !old(HasId(items, created.id))
      ensures old(UniqueIds(items) && CanAssignFreshId(items)) ==> UniqueIds(items)
      ensures old(PositiveIds(items) && CanAssignFreshId(items)) ==> PositiveIds(items)
    {
      created := e.(id := if |items| > 0 then AddInt32(MaxId(items), 1) else 1);
      if UniqueIds(items) && CanAssignFreshId(items) {
        AppendFreshPreservesUnique(items, e);
      }
      items := items + [created];
      persisted := items;
    }

    /**
     * `UpdateAsync`: `KeyNotFoundException` when no entity has the id;
     * otherwise the entity replaces the first one with its id, at the same
     * position, and the store saves.
     */
    method Update(e: Entity<D>) returns (r: Result<Entity<D>, Error>)
      requires Valid()
      modifies this
      ensures Valid()
      ensures !old(HasId(items, e.id)) ==>
                r == Failure(KeyNotFound(kind, e.id)) && items == old(items)
      ensures old(HasId(items, e.id)) ==>
                r == Success(e) &&
                items == old(items)[old(FirstIndex(items, IdIs(e.id))).value := e]
      ensures old(UniqueIds(items)) ==> UniqueIds(items)
      ensures old(PositiveIds(items)) ==> PositiveIds(items)
    {
      var existing := GetById(e.id);
      if existing.None? {
        return Failure(KeyNotFound(kind, e.id));
      }
      // `IndexOf(existing)` finds the same position as the id lookup.
      IndexOfFirst(items, IdIs(e.id));
      var index := FirstIndex(items, IsEqualTo(existing.value));
      if UniqueIds(items) {
        ReplacePreservesUnique(items, index.value, e);
      }
      items := items[index.value := e];
      persisted := items;
      r := Success(e);
    }

    /**
     * `DeleteAsync`: `false` and no change when no entity has the id;
     * otherwise the first entity with it is removed, the rest keep their
     * order, the store saves and the result is `true`.
     */
    method Delete(id: int) returns (removed: bool)
      requires Valid()
      modifies this
      ensures Valid()
      ensures removed == old(HasId(items, id))
      ensures !removed ==> items == old(items)
      ensures removed ==> items == RemoveAt(old(items), old(FirstIndex(items, IdIs(id))).value)
      ensures removed && old(UniqueIds(items)) ==> UniqueIds(items) && !HasId(items, id)
      ensures old(PositiveIds(items)) ==> PositiveIds(items)
    {
      var existing := GetById(id);
      if existing.None? {
        return false;
      }
      // `List.Remove(existing)` removes the first element equal to it.
      IndexOfFirst(items, IdIs(id));
      var index := FirstIndex(items, IsEqualTo(existing.value));
      if UniqueIds(items) {
        RemovePreservesUnique(items, index.value);
      }
      items := RemoveAt(items, index.value);
      persisted := items;
      removed := true;
    }
  }

  type TaskRepository = Store<TaskInfo>
  type UserRepository = Store<UserInfo>
  type ProjectRepository = Store<ProjectInfo>

  function InProject(projectId: int): ProjectTask -> bool {
    (t: ProjectTask) => t.data.projectId == projectId
  }

  function AssignedTo(userId: int): ProjectTask -> bool {
    (t: ProjectTask) => t.data.assignedToUserId == userId
  }

  function UsernameIs(username: string): User -> bool {
    (u: User) => u.data.username == username
  }

  /** `JsonTaskRepository.GetByProjectIdAsync`: the project's tasks, in snapshot order. */
  function GetByProjectId(repo: TaskRepository, projectId: int): (r: seq<ProjectTask>)
    reads repo
    ensures forall i :: 0 <= i < |r| ==> r[i].data.projectId == projectId && r[i] in repo.items
    ensures forall i :: 0 <= i < |repo.items| && repo.items[i].data.projectId == projectId ==>
              repo.items[i] in r
  {
    var r := Filter(repo.items, InProject(projectId));
    assert forall i :: 0 <= i < |r| ==> InProject(projectId)(r[i]);
    assert forall i :: 0 <= i < |repo.items| && repo.items[i].data.projectId == projectId ==>
             InProject(projectId)(repo.items[i]);
    r
  }

  /** `JsonTaskRepository.GetByUserIdAsync`: the user's tasks, in snapshot order. */
  function GetByUserId(repo: TaskRepository, userId: int): (r: seq<ProjectTask>)
    reads repo
    ensures forall i :: 0 <= i < |r| ==> r[i].data.assignedToUserId == userId && r[i] in repo.items
    ensures forall i :: 0 <= i < |repo.items| && repo.items[i].data.assignedToUserId == userId ==>
              repo.items[i] in r
  {
    var r := Filter(repo.items, AssignedTo(userId));
    assert forall i :: 0 <= i < |r| ==> AssignedTo(userId)(r[i]);
    assert forall i :: 0 <= i < |repo.items| && repo.items[i].data.assignedToUserId == userId ==>
             AssignedTo(userId)(repo.items[i]);
    r
  }

  /** `JsonUserRepository.GetByUsernameAsync`: the first user with exactly that name. */
  function GetByUsername(repo: UserRepository, username: string): (r: Option<User>)
    reads repo
    ensures r.None? <==> forall i :: 0 <= i < |repo.items| ==> repo.items[i].data.username != username
    ensures r.Some? ==> r.value.data.username == username
    ensures r.Some? ==> FirstIndex(repo.items, UsernameIs(username)).Some? &&
                        r.value == repo.items[FirstIndex(repo.items, UsernameIs(username)).value]
  {
    var r := First(repo.items, UsernameIs(username));
    assert r.Some? ==> UsernameIs(username)(r.value);
    assert r.None? ==> forall i :: 0 <= i < |repo.items| ==> !UsernameIs(username)(repo.items[i]);
    r
  }
}
