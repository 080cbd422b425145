/** Project membership and the access decision shared by the project and
    task handlers: `roleForProject`, `getProjectForAccess`, the membership
    upsert of accept/approve, and the table invariant that ties the OWNER
    membership row to the project's owner. */
module Access {
  import opened Wrappers

  datatype Role = Owner | Member

  /** A row of the project table. `description` is `None` for SQL `null`. */
  datatype Project = Project(id: string, name: string, description: Option<string>, ownerId: string)

  /** The membership table, keyed by (project id, user id). */
  type Members = map<(string, string), Role>

  /** `roleForProject(userId, project)`, where `memberRole` is the role of the
      caller's membership row, if any: the owner is OWNER whatever the rows
      say; anyone else has the role of their row, or none. */
  function RoleForProject(userId: string, project: Project, memberRole: Option<Role>): (r: Option<Role>)
    ensures project.ownerId == userId ==> r == Some(Owner)
    ensures project.ownerId != userId ==> r == memberRole
  {
    if project.ownerId == userId then Some(Owner) else memberRole
  }

  function RowRole(members: Members, projectId: string, userId: string): Option<Role> {
    if (projectId, userId) in members then Some(members[(projectId, userId)]) else None
  }

  /** `getProjectForAccess(projectId, userId)`: 404 when the project does not
      exist, checked before 403 when the caller has no role in it. */
  function ProjectAccess(projects: map<string, Project>, members: Members,
                         projectId: string, userId: string): (r: Result<(Project, Role)>)
    ensures r.Err? ==> r.error == NotFound("Project not found") || r.error == Forbidden()
    ensures r.Err? && r.error.status == 404 <==> projectId !in projects
    ensures r.Err? && r.error.status == 403 <==>
      projectId in projects && projects[projectId].ownerId != userId && (projectId, userId) !in members
    ensures r.Ok? ==>
      r.value.0 == projects[projectId]
      && RoleForProject(userId, projects[projectId], RowRole(members, projectId, userId)) == Some(r.value.1)
  {
    if projectId !in projects then Err(NotFound("Project not found"))
    else
      var project := projects[projectId];
      match RoleForProject(userId, project, RowRole(members, projectId, userId))
      case None => Err(Forbidden())
      case Some(role) => Ok((project, role))
  }

  /** The membership tables as the handlers keep them: every row belongs to
      an existing project, each project's owner has an OWNER row, and only
      the owner has one. */
  predicate MembersValid(projects: map<string, Project>, members: Members) {
    (forall p :: p in projects ==>
       projects[p].id == p && (p, projects[p].ownerId) in members && members[(p, projects[p].ownerId)] == Owner)
    && (forall k :: k in members ==> k.0 in projects && (members[k] == Owner ==> k.1 == projects[k.0].ownerId))
  }

  /** `projectMember.upsert({ update: {}, create: { role: "MEMBER" } })`:
      adds a MEMBER row when none exists and leaves an existing row alone. */
  function UpsertMember(members: Members, projectId: string, userId: string): (r: Members)
    ensures (projectId, userId) in r
    ensures (projectId, userId) in members ==> r == members
    ensures (projectId, userId) !in members ==> r == members[(projectId, userId) := Member]
  {
    if (projectId, userId) in members then members else members[(projectId, userId) := Member]
  }

  // ---------------------------------------------------------------------
  // Properties

  /** Under the table invariant the caller is OWNER exactly when they own the
      project, MEMBER exactly when they have a non-owner row, and has no role
      otherwise. */
  lemma RoleMatchesTables(projects: map<string, Project>, members: Members, projectId: string, userId: string)
    requires MembersValid(projects, members) && projectId in projects
    ensures var role := RoleForProject(userId, projects[projectId], RowRole(members, projectId, userId));
      (role == Some(Owner) <==> projects[projectId].ownerId == userId)
      && (role == Some(Member) <==> projects[projectId].ownerId != userId && (projectId, userId) in members)
      && (role.None? <==> projects[projectId].ownerId != userId && (projectId, userId) !in members)
  {
    if projects[projectId].ownerId != userId && (projectId, userId) in members {
      assert members[(projectId, userId)] != Owner;
    }
  }

  /** Upserting twice is upserting once. */
  lemma UpsertIdempotent(members: Members, projectId: string, userId: string)
    ensures UpsertMember(UpsertMember(members, projectId, userId), projectId, userId)
            == UpsertMember(members, projectId, userId)
  {
  }

  /** Deleting a membership row other than an owner's keeps the invariant. */
  lemma RemoveKeepsValid(projects: map<string, Project>, members: Members, projectId: string, userId: string)
    requires MembersValid(projects, members)
    requires projectId in projects ==> userId != projects[projectId].ownerId
    ensures MembersValid(projects, members - {(projectId, userId)})
  {
  }

  /** After the upsert of an existing project the user can open it, and the
      invariant still holds. */
  lemma UpsertGrantsAccess(projects: map<string, Project>, members: Members, projectId: string, userId: string)
    requires MembersValid(projects, members) && projectId in projects
    ensures MembersValid(projects, UpsertMember(members, projectId, userId))
    ensures ProjectAccess(projects, UpsertMember(members, projectId, userId), projectId, userId).Ok?
  {
    var m := UpsertMember(members, projectId, userId);
    assert forall k :: k in m ==> k in members || (k == (projectId, userId) && m[k] == Member);
  }
}
