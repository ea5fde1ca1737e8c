/**
 * Services/ProjectService.cs: name validation before create and update, the
 * store's not-found on update turned into `false`, pass-through reads and
 * delete.
 */
module Projects {
  import opened Wrappers
  import opened Models
  import opened Snapshots
  import opened Repositories

  class ProjectService {
    const projects: ProjectRepository

    constructor (projects: ProjectRepository)
      ensures this.projects == projects
    {
      this.projects := projects;
    }

    /**
     * `CreateProjectAsync`: a null, empty or whitespace-only name raises
     * `ArgumentException` for parameter `name` and stores nothing; otherwise
     * the project is created with the store's next id.
     */
    method CreateProject(name: Option<string>, description: string, now: Timestamp)
      returns (r: Result<Project, Error>)
      requires projects.Valid()
      modifies projects
      ensures projects.Valid()
      ensures IsNullOrWhiteSpace(name) ==>
                r == Failure(InvalidArgument("name")) && projects.items == old(projects.items)
      ensures !IsNullOrWhiteSpace(name) ==>
                r == Success(Entity(NextId(old(projects.items)), ProjectInfo(name, description, now))) &&
                projects.items == old(projects.items) + [r.value]
    {
      if IsNullOrWhiteSpace(name) {
        return Failure(InvalidArgument("name"));
      }
      var created := projects.Create(Entity(0, ProjectInfo(name, description, now)));
      r := Success(created);
    }

    /** `GetProjectAsync`: the store's lookup by id. */
    function GetProject(id: int): (r: Option<Project>)
      reads projects
      ensures r == projects.GetById(id)
    {
      projects.GetById(id)
    }

    /** `GetAllProjectsAsync`: the store's whole snapshot. */
    function GetAllProjects(): (r: seq<Project>)
      reads projects
      ensures r == projects.GetAll()
    {
      projects.GetAll()
    }

    /**
     * `UpdateProjectAsync`: a null or whitespace-only name raises
     * `ArgumentException` for parameter `project`; otherwise the store's
     * `KeyNotFoundException` becomes `false`, and a known id is replaced in
     * place with result `true`. Either way a failure changes nothing.
     */
    method UpdateProject(project: Project) returns (r: Result<bool, Error>)
      requires projects.Valid()
      modifies projects
      ensures projects.Valid()
      ensures IsNullOrWhiteSpace(project.data.name) ==>
                r == Failure(InvalidArgument("project")) && projects.items == old(projects.items)
      ensures !IsNullOrWhiteSpace(project.data.name) ==>
                r == Success(old(HasId(projects.items, project.id)))
      ensures r != Success(true) ==> projects.items == old(projects.items)
      ensures r == Success(true) ==>
                projects.items == old(projects.items)[old(FirstIndex(projects.items, IdIs(project.id))).value := project]
    {
      if IsNullOrWhiteSpace(project.data.name) {
        return Failure(InvalidArgument("project"));
      }
      var updated := projects.Update(project);
      // The store fails only with `KeyNotFoundException`, which is caught.
      r := Success(updated.Success?);
    }

    /**
     * `DeleteProjectAsync`: exactly the store's delete; tasks that refer to
     * the project are neither checked nor removed.
     */
    method DeleteProject(id: int) returns (removed: bool)
      requires projects.Valid()
      modifies projects
      ensures projects.Valid()
      ensures removed == old(HasId(projects.items, id))
      ensures !removed ==> projects.items == old(projects.items)
      ensures removed ==>
                projects.items == RemoveAt(old(projects.items), old(FirstIndex(projects.items, IdIs(id))).value)
    {
      removed := projects.Delete(id);
    }
  }
}
