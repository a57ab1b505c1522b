/** The in-memory project repository used by the tests
    (internal/domain/projects/fake_repository.go): a table of projects with an
    id counter, and a list of (project, user, role) membership entries. */
module ProjectRepo {
  import opened Wrappers
  import opened Seqs

  /** `Project` (projects/project.go); the timestamps are not modelled. */
  datatype Project = Project(ID: int, Name: string, Description: string, OwnerID: int, OwnerName: string)

  /** `projectUserEntry`: one membership row. */
  datatype Membership = Membership(ProjectID: int, UserID: int, Role: string)

  /** `ProjectMember`, the row the member list returns. */
  datatype ProjectMember = ProjectMember(ID: int, Email: string, Role: string)

  /** The e-mail the fake reports for every member. */
  const FakeMemberEmail: string := "fake@example.com"

  const ErrProjectNotFound: string := "project not found"
  const ErrNotFoundInFake: string := "project not found in fake repo"
  const ErrUserNotInProject: string := "user not found in project"

  // ---------------------------------------------------------------------------
  // Specification of the queries

  predicate HasProject(projects: seq<Project>, id: int) {
    exists i :: 0 <= i < |projects| && projects[i].ID == id
  }

  /** The first project with that id, as a lookup scanning from the front
      finds it. */
  function Lookup(projects: seq<Project>, id: int): (r: Option<Project>)
    ensures r.Some? <==> HasProject(projects, id)
    ensures r.Some? ==> r.value in projects && r.value.ID == id
    decreases |projects|
  {
    if |projects| == 0 then None
    else if projects[0].ID == id then Some(projects[0])
    else
      var r := Lookup(projects[1..], id);
      assert HasProject(projects, id) ==> HasProject(projects[1..], id) by {
        if HasProject(projects, id) {
          var i :| 0 <= i < |projects| && projects[i].ID == id;
          assert projects[1..][i - 1] == projects[i];
        }
      }
      r
  }

  /** Project ids are strictly increasing along the table, so they are unique
      and their order is the order of creation. */
  ghost predicate IdsIncreasing(projects: seq<Project>) {
    forall i, j :: 0 <= i < j < |projects| ==> projects[i].ID < projects[j].ID
  }

  function OwnedBy(projects: seq<Project>, ownerID: int): seq<Project> {
    Filter(projects, (p: Project) => p.OwnerID == ownerID)
  }

  /** The member rows of a project, one per membership entry, in entry order. */
  function MembersOf(entries: seq<Membership>, projectID: int): (r: seq<ProjectMember>)
    decreases |entries|
  {
    if |entries| == 0 then []
    else
      var last := entries[|entries| - 1];
      MembersOf(entries[..|entries| - 1], projectID)
        + (if last.ProjectID == projectID then [ProjectMember(last.UserID, FakeMemberEmail, last.Role)] else [])
  }

  predicate IsMember(entries: seq<Membership>, projectID: int, userID: int) {
    exists i :: 0 <= i < |entries| && entries[i].ProjectID == projectID && entries[i].UserID == userID
  }

  /** The projects a user has entries for. */
  function ProjectsOf(entries: seq<Membership>, userID: int): set<int> {
    set i | 0 <= i < |entries| && entries[i].UserID == userID :: entries[i].ProjectID
  }

  /** Two users share a project when some project id has an entry for each. */
  predicate SharesProject(entries: seq<Membership>, a: int, b: int) {
    exists i, j :: 0 <= i < |entries| && 0 <= j < |entries| &&
      entries[i].UserID == a && entries[j].UserID == b && entries[i].ProjectID == entries[j].ProjectID
  }

  // ---------------------------------------------------------------------------
  // Properties of the queries

  /** `GetAllByOwner` returns exactly the owner's projects, and a project
      created later comes after those created before. */
  lemma OwnedByExact(projects: seq<Project>, more: seq<Project>, ownerID: int)
    ensures forall p :: p in OwnedBy(projects, ownerID) <==> p in projects && p.OwnerID == ownerID
    ensures OwnedBy(projects + more, ownerID) == OwnedBy(projects, ownerID) + OwnedBy(more, ownerID)
  {
    FilterMembers(projects, (p: Project) => p.OwnerID == ownerID);
    FilterAppend(projects, more, (p: Project) => p.OwnerID == ownerID);
  }

  /** The member list names a user exactly when the user has an entry for the
      project, and it has one row per entry. */
  lemma {:induction false} MembersOfExact(entries: seq<Membership>, projectID: int, userID: int)
    ensures (exists k :: 0 <= k < |MembersOf(entries, projectID)| && MembersOf(entries, projectID)[k].ID == userID)
        <==> IsMember(entries, projectID, userID)
    ensures |MembersOf(entries, projectID)| == |Filter(entries, (e: Membership) => e.ProjectID == projectID)|
    decreases |entries|
  {
    if |entries| > 0 {
      var front := entries[..|entries| - 1];
      var last := entries[|entries| - 1];
      MembersOfExact(front, projectID, userID);
      var r := MembersOf(entries, projectID);
      var rf := MembersOf(front, projectID);
      if IsMember(entries, projectID, userID) {
        var i :| 0 <= i < |entries| && entries[i].ProjectID == projectID && entries[i].UserID == userID;
        if i < |entries| - 1 {
          assert front[i] == entries[i];
          var k :| 0 <= k < |rf| && rf[k].ID == userID;
          assert r[k] == rf[k];
        } else {
          assert r[|r| - 1].ID == userID;
        }
      }
      if exists k :: 0 <= k < |r| && r[k].ID == userID {
        var k :| 0 <= k < |r| && r[k].ID == userID;
        if k < |rf| {
          assert rf[k] == r[k];
          var i :| 0 <= i < |front| && front[i].ProjectID == projectID && front[i].UserID == userID;
          assert entries[i] == front[i];
        } else {
          assert last.ProjectID == projectID && last.UserID == userID;
        }
      }
    }
  }

  /** Sharing a project is having overlapping project sets, so it is
      symmetric. */
  lemma SharesProjectIsOverlap(entries: seq<Membership>, a: int, b: int)
    ensures SharesProject(entries, a, b) <==> ProjectsOf(entries, a) * ProjectsOf(entries, b) != {}
    ensures SharesProject(entries, a, b) <==> SharesProject(entries, b, a)
  {
    if SharesProject(entries, a, b) {
      var i, j :| 0 <= i < |entries| && 0 <= j < |entries| &&
        entries[i].UserID == a && entries[j].UserID == b && entries[i].ProjectID == entries[j].ProjectID;
      assert entries[i].ProjectID in ProjectsOf(entries, a) * ProjectsOf(entries, b);
    }
    if ProjectsOf(entries, a) * ProjectsOf(entries, b) != {} {
      var p :| p in ProjectsOf(entries, a) * ProjectsOf(entries, b);
      var i :| 0 <= i < |entries| && entries[i].UserID == a && entries[i].ProjectID == p;
      var j :| 0 <= j < |entries| && entries[j].UserID == b && entries[j].ProjectID == p;
      assert SharesProject(entries, a, b);
    }
  }

  // ---------------------------------------------------------------------------
  // The repository

  class FakeRepository {
    var projects: seq<Project>
    var projectUsers: seq<Membership>
    var nextID: int

    /** Every stored id is positive, below the counter, and ids increase
        along the table. */
    ghost predicate Valid()
      reads this
    {
      && nextID >= 1
      && (forall i :: 0 <= i < |projects| ==> 1 <= projects[i].ID < nextID)
      && IdsIncreasing(projects)
    }

    /** `NewFakeRepository` */
    constructor ()
      ensures Valid()
      ensures projects == [] && projectUsers == [] && nextID == 1
    {
      projects := [];
      projectUsers := [];
      nextID := 1;
    }

    /** `CreateProject` (fake_repository.go:30-40): the project gets the next
        id, which no stored project has, and is appended. */
    method CreateProject(p: Project) returns (r: Project)
      requires Valid()
      modifies this
      ensures Valid()
      ensures r == p.(ID := old(nextID)) && nextID == old(nextID) + 1
      ensures forall i :: 0 <= i < |old(projects)| ==> old(projects)[i].ID < r.ID
      ensures projects == old(projects) + [r] && projectUsers == old(projectUsers)
    {
      r := p.(ID := nextID);
      nextID := nextID + 1;
      projects := projects + [r];
    }

    /** `Update` (fake_repository.go:42-52): the record with the same id is
        replaced and every other record is kept; without such a record the
        table is unchanged and an error is returned. */
    method Update(p: Project) returns (r: Result<Project>)
      requires Valid()
      modifies this`projects
      ensures Valid()
      ensures r.Ok? <==> HasProject(old(projects), p.ID)
      ensures r.Ok? ==> r.value == p && |projects| == |old(projects)|
      ensures r.Ok? ==> forall i :: 0 <= i < |projects| ==>
        projects[i] == if old(projects)[i].ID == p.ID then p else old(projects)[i]
      ensures r.Err? ==> r.error == ErrNotFoundInFake && projects == old(projects)
    {
      for i := 0 to |projects|
        invariant forall k :: 0 <= k < i ==> projects[k].ID != p.ID
      {
        if projects[i].ID == p.ID {
          projects := projects[i := p];
          return Ok(p);
        }
      }
      return Err(ErrNotFoundInFake);
    }

    /** `GetAllByOwner` (fake_repository.go:54-62) */
    method GetAllByOwner(ownerID: int) returns (res: seq<Project>)
      ensures res == OwnedBy(projects, ownerID)
    {
      res := [];
      for i := 0 to |projects|
        invariant res == OwnedBy(projects[..i], ownerID)
      {
        assert projects[..i + 1][..i] == projects[..i];
        if projects[i].OwnerID == ownerID {
          res := res + [projects[i]];
        }
      }
      assert projects[..|projects|] == projects;
    }

    /** `GetByID` (fake_repository.go:64-72): the stored project with that
        id, or "project not found". */
    method GetByID(id: int) returns (r: Result<Project>)
      ensures r == if HasProject(projects, id) then Ok(Lookup(projects, id).value) else Err(ErrProjectNotFound)
    {
      for i := 0 to |projects|
        invariant Lookup(projects[i..], id) == Lookup(projects, id)
      {
        if projects[i].ID == id {
          return Ok(projects[i]);
        }
        assert projects[i..][1..] == projects[i + 1..];
      }
      return Err(ErrProjectNotFound);
    }

    /** `DeleteProject` (fake_repository.go:74-83): the project is spliced out
        only when both its id and its owner match; otherwise the table is
        unchanged and "project not found" is returned. */
    method DeleteProject(id: int, ownerID: int) returns (err: Option<string>)
      requires Valid()
      modifies this`projects
      ensures Valid()
      ensures err.None? <==> exists i :: 0 <= i < |old(projects)| && old(projects)[i].ID == id && old(projects)[i].OwnerID == ownerID
      ensures err.None? ==>
        exists i :: (0 <= i < |old(projects)| && old(projects)[i].ID == id && old(projects)[i].OwnerID == ownerID &&
                     projects == old(projects)[..i] + old(projects)[i + 1..])
      ensures err.Some? ==> err == Some(ErrProjectNotFound) && projects == old(projects)
    {
      for i := 0 to |projects|
        invariant forall k :: 0 <= k < i ==> !(projects[k].ID == id && projects[k].OwnerID == ownerID)
      {
        if projects[i].ID == id && projects[i].OwnerID == ownerID {
          projects := projects[..i] + projects[i + 1..];
          return None;
        }
      }
      return Some(ErrProjectNotFound);
    }

    /** `AddUserToProject` (fake_repository.go:85-98): fails without change
        when the project does not exist, else appends one entry (duplicates
        are not filtered). */
    method AddUserToProject(projectID: int, userID: int, role: string) returns (err: Option<string>)
      modifies this`projectUsers
      ensures err.None? <==> HasProject(projects, projectID)
      ensures err.None? ==> projectUsers == old(projectUsers) + [Membership(projectID, userID, role)]
      ensures err.Some? ==> err == Some(ErrProjectNotFound) && projectUsers == old(projectUsers)
    {
      var found := GetByID(projectID);
      if found.Err? {
        return Some(found.error);
      }
      projectUsers := projectUsers + [Membership(projectID, userID, role)];
      return None;
    }

    /** `ListUsersInProject` (fake_repository.go:100-113) */
    method ListUsersInProject(projectID: int) returns (res: seq<ProjectMember>)
      ensures res == MembersOf(projectUsers, projectID)
    {
      res := [];
      for i := 0 to |projectUsers|
        invariant res == MembersOf(projectUsers[..i], projectID)
      {
        assert projectUsers[..i + 1][..i] == projectUsers[..i];
        var pu := projectUsers[i];
        if pu.ProjectID == projectID {
          res := res + [ProjectMember(pu.UserID, FakeMemberEmail, pu.Role)];
        }
      }
      assert projectUsers[..|projectUsers|] == projectUsers;
    }

    /** `RemoveUserFromProject` (fake_repository.go:115-123): only the first
        matching entry is spliced out; without one the list is unchanged. */
    method RemoveUserFromProject(projectID: int, userID: int) returns (err: Option<string>)
      modifies this`projectUsers
      ensures err.None? <==> IsMember(old(projectUsers), projectID, userID)
      ensures err.None? ==>
        exists i :: (0 <= i < |old(projectUsers)| &&
                     old(projectUsers)[i].ProjectID == projectID && old(projectUsers)[i].UserID == userID &&
                     (forall k :: 0 <= k < i ==> !(old(projectUsers)[k].ProjectID == projectID && old(projectUsers)[k].UserID == userID)) &&
                     projectUsers == old(projectUsers)[..i] + old(projectUsers)[i + 1..])
      ensures err.Some? ==> err == Some(ErrUserNotInProject) && projectUsers == old(projectUsers)
    {
      for i := 0 to |projectUsers|
        invariant forall k :: 0 <= k < i ==> !(projectUsers[k].ProjectID == projectID && projectUsers[k].UserID == userID)
      {
        var pu := projectUsers[i];
        if pu.ProjectID == projectID && pu.UserID == userID {
          projectUsers := projectUsers[..i] + projectUsers[i + 1..];
          return None;
        }
      }
      return Some(ErrUserNotInProject);
    }

    /** `UsersShareProject` (fake_repository.go:125-142): first collects the
        projects of `userA`, then looks for an entry of `userB` in one of
        them. */
    method UsersShareProject(userA: int, userB: int) returns (shared: bool)
      ensures shared <==> SharesProject(projectUsers, userA, userB)
    {
      var userAProjects: set<int> := {};
      for i := 0 to |projectUsers|
        invariant userAProjects == ProjectsOf(projectUsers[..i], userA)
      {
        assert projectUsers[..i + 1] == projectUsers[..i] + [projectUsers[i]];
        if projectUsers[i].UserID == userA {
          userAProjects := userAProjects + {projectUsers[i].ProjectID};
        }
      }
      assert projectUsers[..|projectUsers|] == projectUsers;
      for j := 0 to |projectUsers|
        invariant forall k :: 0 <= k < j ==> !(projectUsers[k].UserID == userB && projectUsers[k].ProjectID in userAProjects)
      {
        if projectUsers[j].UserID == userB && projectUsers[j].ProjectID in userAProjects {
          SharesProjectIsOverlap(projectUsers, userA, userB);
          assert projectUsers[j].ProjectID in ProjectsOf(projectUsers, userB);
          return true;
        }
      }
      SharesProjectIsOverlap(projectUsers, userA, userB);
      return false;
    }
  }
}
