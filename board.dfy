/** The `/api/task` endpoint: `requireProjectAccess`, `getMaxPosition`,
    `reindexColumn`, `moveTaskTransactional`, `mapTask`, and the create,
    move, bulk_reorder, delete, PATCH and DELETE handlers, over the `Task`
    table held by a `Board`. A handler's transaction either completes or
    leaves the table as it was; the project and membership tables are
    read-only here and passed in. */
module TaskApi {
  import opened Wrappers
  import opened Text
  import opened ColumnOrder
  import A = Access

  /** A request-body field: missing (`undefined`), `null`, or a string. */
  datatype Arg<+T> = Absent | Null | Given(value: T)

  /** `x?.trim()` tested for truthiness: the trimmed string, or "" when the
      field is missing or `null`. */
  function TextOf(a: Arg<string>): (r: string)
    ensures !a.Given? ==> r == ""
    ensures a.Given? ==> r == Trim(a.value)
  {
    if a.Given? then Trim(a.value) else ""
  }

  /** `s || null`. */
  function NonEmpty(s: string): (r: Option<string>)
    ensures r.None? <==> s == ""
    ensures r.Some? ==> r.value == s
  {
    if s == "" then None else Some(s)
  }

  /** `typeof d === "string" && d ? new Date(d) : null`, with the date
      parser supplied: a date exactly for a non-empty string, and then the
      parsed one. */
  function DateOf(a: Arg<string>, parseDate: string -> int): (r: Option<int>)
    ensures r.Some? <==> a.Given? && a.value != ""
    ensures r.Some? ==> r.value == parseDate(a.value)
  {
    if a.Given? && a.value != "" then Some(parseDate(a.value)) else None
  }

  // ---------------------------------------------------------------------
  // Access

  /** `requireProjectAccess(projectId, userId)`: 404 for a missing project,
      then the owner is OWNER, a member has the role of their row, and anyone
      else gets 403. */
  function RequireProjectAccess(projects: map<string, A.Project>, members: A.Members,
                                projectId: string, userId: string): (r: Result<A.Role>)
    ensures r == Err(NotFound("Project not found")) <==> projectId !in projects
    ensures r == Err(Forbidden()) <==>
      projectId in projects && projects[projectId].ownerId != userId && (projectId, userId) !in members
    ensures r.Ok? ==>
      projectId in projects
      && (projects[projectId].ownerId == userId ==> r.value == A.Owner)
      && (projects[projectId].ownerId != userId ==> r.value == members[(projectId, userId)])
  {
    if projectId !in projects then Err(NotFound("Project not found"))
    else if projects[projectId].ownerId == userId then Ok(A.Owner)
    else if (projectId, userId) !in members then Err(Forbidden())
    else Ok(members[(projectId, userId)])
  }

  /** The `/api/task` endpoint's access check decides exactly as the project
      endpoint's `getProjectForAccess`: same errors, same role. */
  lemma AccessChecksAgree(projects: map<string, A.Project>, members: A.Members, projectId: string, userId: string)
    ensures var t := RequireProjectAccess(projects, members, projectId, userId);
      var p := A.ProjectAccess(projects, members, projectId, userId);
      (t.Err? <==> p.Err?) && (t.Err? ==> t.error == p.error) && (t.Ok? ==> t.value == p.value.1)
  {
  }

  /** The assignee check of create and PATCH: a membership row, or the
      project's owner. */
  predicate AssigneeInProject(projects: map<string, A.Project>, members: A.Members,
                              projectId: string, assigneeId: string) {
    (projectId, assigneeId) in members
    || (projectId in projects && projects[projectId].ownerId == assigneeId)
  }

  // ---------------------------------------------------------------------
  // mapTask

  /** `!!due && due < now && t.status !== "DONE"` as written: a due date of
      0 ms (the epoch) is falsy and never overdue. */
  function IsOverdueAsWritten(dueDate: Option<int>, status: Status, nowMs: int): (r: bool)
    ensures r <==> IsOverdue(dueDate, status, nowMs) && dueDate != Some(0)
  {
    dueDate.Some? && dueDate.value != 0 && dueDate.value < nowMs && status != Done
  }

  /** A task is overdue when it has a due date, the date has passed, and it
      is not done. */
  function IsOverdue(dueDate: Option<int>, status: Status, nowMs: int): bool {
    dueDate.Some? && dueDate.value < nowMs && status != Done
  }

  /** A task that was due at the epoch and is still open: the written test
      says it is not overdue. */
  lemma EpochDueDateMissed()
    ensures IsOverdue(Some(0), Todo, 1) && !IsOverdueAsWritten(Some(0), Todo, 1)
  {
  }

  /** The written test and the intended one differ only at the epoch. */
  lemma OverdueDiffersOnlyAtEpoch(dueDate: Option<int>, status: Status, nowMs: int)
    ensures IsOverdueAsWritten(dueDate, status, nowMs) != IsOverdue(dueDate, status, nowMs)
            <==> dueDate == Some(0) && 0 < nowMs && status != Done
  {
  }

  /** Overdue is a matter of time passing: once overdue, a task stays so
      until it is done or its due date changes. */
  lemma OverdueIsStable(dueDate: Option<int>, status: Status, nowMs: int, laterMs: int)
    requires nowMs <= laterMs
    ensures IsOverdue(dueDate, status, nowMs) ==> IsOverdue(dueDate, status, laterMs)
    ensures status == Done ==> !IsOverdue(dueDate, status, laterMs)
  {
  }

  /** A task as the endpoint returns it. */
  datatype TaskView = TaskView(task: Task, isOverdue: bool)

  /** `mapTask(t)` at time `nowMs`. */
  function MapTask(t: Task, nowMs: int): (v: TaskView)
    ensures v.task == t
    ensures v.isOverdue ==> t.dueDate.Some? && t.dueDate.value < nowMs && t.status != Done
    ensures t.status == Done || t.dueDate.None? ==> !v.isOverdue
    ensures t.dueDate.Some? && t.dueDate.value < nowMs && t.status != Done ==> v.isOverdue
  {
    TaskView(t, IsOverdue(t.dueDate, t.status, nowMs))
  }

  // ---------------------------------------------------------------------
  // Request bodies

  /** The create body; `projectId` is `(b.projectId || "")`. */
  datatype CreateBody = CreateBody(projectId: string, title: Arg<string>, description: Arg<string>,
                                   status: Option<Status>, priority: Option<Priority>,
                                   dueDate: Arg<string>, assigneeId: Arg<string>)

  /** The checks `create` makes before it writes, in order: 400 without a
      project id, 400 without a title, the access check, 400 for an assignee
      that is neither a member nor the owner. */
  function CreateChecks(projects: map<string, A.Project>, members: A.Members,
                        userId: string, body: CreateBody): (r: Result<()>)
    ensures Trim(body.projectId) == "" ==> r == Err(BadRequest("Missing projectId"))
    ensures Trim(body.projectId) != "" && TextOf(body.title) == "" ==> r == Err(BadRequest("Missing title"))
    ensures Trim(body.projectId) != "" && TextOf(body.title) != ""
            && RequireProjectAccess(projects, members, Trim(body.projectId), userId).Err? ==>
              r == Err(RequireProjectAccess(projects, members, Trim(body.projectId), userId).error)
    ensures Trim(body.projectId) != "" && TextOf(body.title) != ""
            && RequireProjectAccess(projects, members, Trim(body.projectId), userId).Ok?
            && TextOf(body.assigneeId) != ""
            && !AssigneeInProject(projects, members, Trim(body.projectId), TextOf(body.assigneeId)) ==>
              r == Err(BadRequest("Assignee is not in project"))
    ensures r.Ok? <==>
      Trim(body.projectId) != "" && TextOf(body.title) != ""
      && RequireProjectAccess(projects, members, Trim(body.projectId), userId).Ok?
      && (TextOf(body.assigneeId) == "" || AssigneeInProject(projects, members, Trim(body.projectId), TextOf(body.assigneeId)))
  {
    var projectId := Trim(body.projectId);
    var assigneeId := TextOf(body.assigneeId);
    if projectId == "" then Err(BadRequest("Missing projectId"))
    else if TextOf(body.title) == "" then Err(BadRequest("Missing title"))
    else if RequireProjectAccess(projects, members, projectId, userId).Err? then
      Err(RequireProjectAccess(projects, members, projectId, userId).error)
    else if assigneeId != "" && !AssigneeInProject(projects, members, projectId, assigneeId) then
      Err(BadRequest("Assignee is not in project"))
    else Ok(())
  }

  /** The PATCH body; `id` is `(body.id || "")`. */
  datatype PatchBody = PatchBody(id: string, title: Arg<string>, description: Arg<string>,
                                 status: Option<Status>, priority: Option<Priority>,
                                 dueDate: Arg<string>, assigneeId: Arg<string>)

  /** The assignee a PATCH sets, when it is a non-empty id: the trimmed
      string, or "" when the field is missing or `null`. */
  function PatchAssignee(body: PatchBody): (r: string)
    ensures !body.assigneeId.Given? ==> r == ""
    ensures body.assigneeId.Given? ==> r == Trim(body.assigneeId.value)
  {
    if body.assigneeId.Given? then Trim(body.assigneeId.value) else ""
  }

  /** The changes a PATCH asks for, `None` where the field is `undefined`
      and so left out of the update. */
  datatype Patch = Patch(title: Option<string>, description: Option<Option<string>>,
                         dueDate: Option<Option<int>>, assigneeId: Option<Option<string>>,
                         priority: Option<Priority>)

  /** The PATCH handler's decoding of its body: a string title is trimmed
      (and may become ""); a string description is trimmed and `null` clears
      it; a non-empty date string sets the date, `null` clears it, "" leaves
      it; a blank assignee or `null` unassigns. */
  function DecodePatch(body: PatchBody, parseDate: string -> int): (p: Patch)
    ensures p.title.Some? <==> body.title.Given?
    ensures p.description.None? <==> body.description.Absent?
    ensures p.description == Some(None) <==> body.description.Null?
    ensures p.dueDate.None? <==> body.dueDate.Absent? || body.dueDate == Given("")
    ensures p.dueDate == Some(None) <==> body.dueDate.Null?
    ensures p.assigneeId.None? <==> body.assigneeId.Absent?
    ensures p.assigneeId == Some(None) <==> body.assigneeId.Null? || (body.assigneeId.Given? && PatchAssignee(body) == "")
    ensures p.priority == body.priority
  {
    var title := if body.title.Given? then Some(Trim(body.title.value)) else None;
    var description := match body.description
      case Absent => None
      case Null => Some(None)
      case Given(s) => Some(Some(Trim(s)));
    var dueDate := match body.dueDate
      case Absent => None
      case Null => Some(None)
      case Given(s) => if s != "" then Some(Some(parseDate(s))) else None;
    var assigneeId := match body.assigneeId
      case Absent => None
      case Null => Some(None)
      case Given(s) => Some(NonEmpty(Trim(s)));
    Patch(title, description, dueDate, assigneeId, body.priority)
  }

  function Pick<T>(change: Option<T>, current: T): T {
    if change.Some? then change.value else current
  }

  /** `update({ data: { ...(title !== undefined ? { title } : {}), ... } })`:
      the supplied fields take their new values, every other field of the
      row is kept; in particular the patched task stays in its place. */
  function ApplyPatch(t: Task, p: Patch): (r: Task)
    ensures r.id == t.id && r.projectId == t.projectId && r.status == t.status
    ensures r.position == t.position && r.createdById == t.createdById
    ensures r.title == (if p.title.Some? then p.title.value else t.title)
    ensures r.description == (if p.description.Some? then p.description.value else t.description)
    ensures r.dueDate == (if p.dueDate.Some? then p.dueDate.value else t.dueDate)
    ensures r.assigneeId == (if p.assigneeId.Some? then p.assigneeId.value else t.assigneeId)
    ensures r.priority == (if p.priority.Some? then p.priority.value else t.priority)
    ensures p == Patch(None, None, None, None, None) ==> r == t
  {
    t.(title := Pick(p.title, t.title), description := Pick(p.description, t.description),
       dueDate := Pick(p.dueDate, t.dueDate), assigneeId := Pick(p.assigneeId, t.assigneeId),
       priority := Pick(p.priority, t.priority))
  }

  /** Sending the same PATCH twice changes nothing the second time. */
  lemma PatchIdempotent(t: Task, p: Patch)
    ensures ApplyPatch(ApplyPatch(t, p), p) == ApplyPatch(t, p)
  {
  }

  /** `typeof toIndex === "number" ? toIndex : 0`: a missing or non-number
      index is 0, and a number, finite or not, is kept. */
  function IndexOf(toIndex: Option<NumberArg>): (r: NumberArg)
    ensures toIndex.None? ==> r == Finite(0.0)
    ensures toIndex.Some? ==> r == toIndex.value
  {
    if toIndex.Some? then toIndex.value else Finite(0.0)
  }

  // ---------------------------------------------------------------------
  // The `Task` table

  class Board {
    var tasks: Tasks

    /** Every row is stored under its own id. */
    predicate Valid()
      reads this
    {
      forall id :: id in tasks ==> tasks[id].id == id
    }

    constructor ()
      ensures Valid() && tasks == map[]
    {
      tasks := map[];
    }

    /** `findMany({ where: { projectId, status }, orderBy: { position: "asc" } })`:
        the column's ids in ascending position. */
    method ListColumn(projectId: string, status: Status) returns (ids: seq<string>)
      ensures IsListing(tasks, projectId, status, ids)
    {
      ids := [];
      var rest := tasks.Keys;
      while rest != {}
        invariant rest <= tasks.Keys
        invariant AllInColumn(tasks, projectId, status, ids) && NoDup(ids) && Ascending(tasks, ids)
        invariant forall id :: id in ids ==> id !in rest
        invariant forall id :: id in tasks && InColumn(tasks[id], projectId, status) && id !in rest ==> id in ids
        decreases rest
      {
        var id :| id in rest;
        rest := rest - {id};
        if InColumn(tasks[id], projectId, status) {
          var j := 0;
          while j < |ids| && tasks[ids[j]].position <= tasks[id].position
            invariant 0 <= j <= |ids|
            invariant forall i :: 0 <= i < j ==> tasks[ids[i]].position <= tasks[id].position
          {
            j := j + 1;
          }
          InsertListed(tasks, projectId, status, ids, j, id);
          ids := InsertAt(ids, j, id);
        }
      }
    }

    /** `getMaxPosition(projectId, status)`. */
    method GetMaxPosition(projectId: string, status: Status) returns (max: int)
      ensures IsMaxPosition(tasks, projectId, status, max)
    {
      max := -1;
      var found := false;
      var rest := tasks.Keys;
      while rest != {}
        invariant rest <= tasks.Keys
        invariant found ==> exists id :: id in tasks && InColumn(tasks[id], projectId, status) && tasks[id].position == max
        invariant !found ==> max == -1 && forall id :: id in tasks && id !in rest ==> !InColumn(tasks[id], projectId, status)
        invariant forall id :: id in tasks && id !in rest && InColumn(tasks[id], projectId, status) ==> tasks[id].position <= max
        decreases rest
      {
        var id :| id in rest;
        rest := rest - {id};
        if InColumn(tasks[id], projectId, status) && (!found || tasks[id].position > max) {
          max := tasks[id].position;
          found := true;
        }
      }
    }

    /** The loop `update({ where: { id: ids[i] }, data: { position: i } })`. */
    method WritePositions(ids: seq<string>)
      requires Valid()
      requires forall i :: 0 <= i < |ids| ==> ids[i] in tasks
      modifies this
      ensures Valid()
      ensures tasks == Renumber(old(tasks), ids)
    {
      for i := 0 to |ids|
        invariant tasks == Renumber(old(tasks), ids[..i])
      {
        assert ids[..i + 1][..i] == ids[..i];
        tasks := tasks[ids[i] := tasks[ids[i]].(position := i)];
      }
      assert ids[..|ids|] == ids;
    }

    /** `reindexColumn(tx, projectId, status)`, returning the listing it
        renumbered. */
    method ReindexColumn(projectId: string, status: Status) returns (ghost listing: seq<string>)
      requires Valid()
      modifies this
      ensures Valid()
      ensures IsListing(old(tasks), projectId, status, listing)
      ensures tasks == Renumber(old(tasks), listing)
    {
      var ids := ListColumn(projectId, status);
      WritePositions(ids);
      listing := ids;
    }

    /** `moveTaskTransactional(tx, projectId, taskId, toStatus, toIndex)`:
        404 before any write when the named task is not in the project; otherwise
        the table becomes `MoveResult` of the listings the two queries
        returned. */
    method MoveTaskTransactional(projectId: string, taskId: string, toStatus: Status, toIndex: NumberArg)
      returns (r: Result<()>, ghost dest: seq<string>, ghost src: seq<string>)
      requires Valid()
      modifies this
      ensures Valid()
      ensures r.Err? <==> taskId !in old(tasks) || old(tasks)[taskId].projectId != projectId
      ensures r.Err? ==> r.error == NotFound("Task not found") && tasks == old(tasks)
      ensures r.Ok? ==>
        IsListing(old(tasks), projectId, toStatus, dest)
        && (old(tasks)[taskId].status != toStatus ==>
              IsListing(MoveMiddle(old(tasks), taskId, toStatus, toIndex, dest), projectId, old(tasks)[taskId].status, src))
        && tasks == MoveResult(old(tasks), taskId, toStatus, toIndex, dest, src)
    {
      dest, src := [], [];
      if taskId !in tasks || tasks[taskId].projectId != projectId {
        r := Err(NotFound("Task not found"));
        return;
      }
      var fromStatus := tasks[taskId].status;
      var destIds := ListColumn(projectId, toStatus);
      dest := destIds;
      var filtered := Without(destIds, taskId);
      var idx := ClampIndex(toIndex, |filtered|);
      var order := InsertAt(filtered, idx, taskId);
      MoveOrderEnumerates(tasks, projectId, taskId, toStatus, toIndex, dest);
      tasks := tasks[taskId := tasks[taskId].(status := toStatus)];
      WritePositions(order);
      if fromStatus != toStatus {
        src := ReindexColumn(projectId, fromStatus);
      }
      r := Ok(());
    }

    /** `position = getMaxPosition(projectId, status) + 1` followed by
        `task.create`: the row is added after every task of its column. */
    method AddAtEnd(row: Task) returns (t: Task)
      requires Valid() && row.id !in tasks
      modifies this
      ensures Valid()
      ensures t == row.(position := t.position) && tasks == old(tasks)[row.id := t]
      ensures IsMaxPosition(old(tasks), row.projectId, row.status, t.position - 1)
    {
      var max := GetMaxPosition(row.projectId, row.status);
      t := row.(position := max + 1);
      tasks := tasks[row.id := t];
    }

    /** The status branch of PATCH: `newPos = getMaxPosition(projectId,
        status) + 1`, the update with the new status and position, then
        `reindexColumn` of the column the patched task left. */
    method ChangeColumn(row: Task) returns (ghost max: int, ghost listing: seq<string>)
      requires Valid() && row.id in tasks
      requires row.projectId == tasks[row.id].projectId && row.status != tasks[row.id].status
      modifies this
      ensures Valid()
      ensures IsMaxPosition(old(tasks), row.projectId, row.status, max)
      ensures IsListing(old(tasks)[row.id := row.(position := max + 1)], row.projectId, old(tasks)[row.id].status, listing)
      ensures tasks == Renumber(old(tasks)[row.id := row.(position := max + 1)], listing)
    {
      var from := tasks[row.id].status;
      var last := GetMaxPosition(row.projectId, row.status);
      max := last;
      tasks := tasks[row.id := row.(position := last + 1)];
      listing := ReindexColumn(row.projectId, from);
    }

    // -------------------------------------------------------------------
    // Handlers

    /** POST `create`: 400 without a project id or a title, the access
        check, 400 for an assignee outside the project; then the new task is
        added at the end of its column and no existing task changes. */
    method CreateTask(userId: string, projects: map<string, A.Project>, members: A.Members,
                      body: CreateBody, parseDate: string -> int, newId: string) returns (r: Result<Task>)
      requires Valid() && newId !in tasks
      modifies this
      ensures Valid()
      ensures r.Err? ==> tasks == old(tasks)
      ensures r.Err? <==> CreateChecks(projects, members, userId, body).Err?
      ensures r.Err? ==> r.error == CreateChecks(projects, members, userId, body).error
      ensures r.Ok? ==>
        var t := r.value;
        tasks == old(tasks)[newId := t]
        && t.id == newId && t.projectId == Trim(body.projectId) && t.title == TextOf(body.title)
        && t.description == NonEmpty(TextOf(body.description))
        && t.status == (if body.status.Some? then body.status.value else Todo)
        && t.priority == (if body.priority.Some? then body.priority.value else Medium)
        && t.dueDate == DateOf(body.dueDate, parseDate)
        && t.assigneeId == NonEmpty(TextOf(body.assigneeId))
        && t.createdById == userId
        && IsMaxPosition(old(tasks), t.projectId, t.status, t.position - 1)
    {
      var check := CreateChecks(projects, members, userId, body);
      if check.Err? {
        return Err(check.error);
      }
      var projectId := Trim(body.projectId);
      var status := if body.status.Some? then body.status.value else Todo;
      var priority := if body.priority.Some? then body.priority.value else Medium;
      var t := AddAtEnd(Task(newId, projectId, TextOf(body.title), NonEmpty(TextOf(body.description)), status, priority,
                             DateOf(body.dueDate, parseDate), 0, NonEmpty(TextOf(body.assigneeId)), userId));
      return Ok(t);
    }

    /** POST `move`: 400 for a missing project id, task id or status, the
        access check, then the transactional move (404 when the moved task is not
        in the project); the response is the moved task. */
    method MoveTask(userId: string, projects: map<string, A.Project>, members: A.Members,
                    projectIdRaw: string, idRaw: string, toStatus: Option<Status>, toIndex: Option<NumberArg>)
      returns (r: Result<Task>, ghost dest: seq<string>, ghost src: seq<string>)
      requires Valid()
      modifies this
      ensures Valid()
      ensures r.Err? ==> tasks == old(tasks)
      ensures Trim(projectIdRaw) == "" ==> r == Err(BadRequest("Missing projectId"))
      ensures Trim(projectIdRaw) != "" && Trim(idRaw) == "" ==> r == Err(BadRequest("Missing id"))
      ensures Trim(projectIdRaw) != "" && Trim(idRaw) != "" && toStatus.None? ==> r == Err(BadRequest("Missing toStatus"))
      ensures Trim(projectIdRaw) != "" && Trim(idRaw) != "" && toStatus.Some?
              && RequireProjectAccess(projects, members, Trim(projectIdRaw), userId).Err? ==>
                r == Err(RequireProjectAccess(projects, members, Trim(projectIdRaw), userId).error)
      ensures Trim(projectIdRaw) != "" && Trim(idRaw) != "" && toStatus.Some?
              && RequireProjectAccess(projects, members, Trim(projectIdRaw), userId).Ok?
              && (Trim(idRaw) !in old(tasks) || old(tasks)[Trim(idRaw)].projectId != Trim(projectIdRaw)) ==>
                r == Err(NotFound("Task not found"))
      ensures r.Ok? <==>
        Trim(projectIdRaw) != "" && Trim(idRaw) != "" && toStatus.Some?
        && RequireProjectAccess(projects, members, Trim(projectIdRaw), userId).Ok?
        && Trim(idRaw) in old(tasks) && old(tasks)[Trim(idRaw)].projectId == Trim(projectIdRaw)
      ensures r.Ok? ==>
        var id := Trim(idRaw);
        var projectId := Trim(projectIdRaw);
        id in old(tasks) && old(tasks)[id].projectId == projectId
        && RequireProjectAccess(projects, members, projectId, userId).Ok?
        && IsListing(old(tasks), projectId, toStatus.value, dest)
        && (old(tasks)[id].status != toStatus.value ==>
              IsListing(MoveMiddle(old(tasks), id, toStatus.value, IndexOf(toIndex), dest), projectId,
                        old(tasks)[id].status, src))
        && tasks == MoveResult(old(tasks), id, toStatus.value, IndexOf(toIndex), dest, src)
        && id in tasks && r.value == tasks[id]
    {
      dest, src := [], [];
      var projectId := Trim(projectIdRaw);
      var id := Trim(idRaw);
      if projectId == "" {
        r := Err(BadRequest("Missing projectId"));
        return;
      }
      if id == "" {
        r := Err(BadRequest("Missing id"));
        return;
      }
      if toStatus.None? {
        r := Err(BadRequest("Missing toStatus"));
        return;
      }
      var access := RequireProjectAccess(projects, members, projectId, userId);
      if access.Err? {
        r := Err(access.error);
        return;
      }
      var moved;
      moved, dest, src := MoveTaskTransactional(projectId, id, toStatus.value, IndexOf(toIndex));
      if moved.Err? {
        r := Err(moved.error);
        return;
      }
      r := Ok(tasks[id]);
    }

    /** POST `bulk_reorder`: 400 for a missing project id, status or list,
        the access check, 400 before any write when an id is not a task of
        the column; then the i-th id gets position i. */
    method BulkReorder(userId: string, projects: map<string, A.Project>, members: A.Members,
                       projectIdRaw: string, status: Option<Status>, orderedIds: seq<string>)
      returns (r: Result<()>)
      requires Valid()
      modifies this
      ensures Valid()
      ensures r.Err? ==> tasks == old(tasks)
      ensures Trim(projectIdRaw) == "" ==> r == Err(BadRequest("Missing projectId"))
      ensures Trim(projectIdRaw) != "" && status.None? ==> r == Err(BadRequest("Missing status"))
      ensures Trim(projectIdRaw) != "" && status.Some? && |orderedIds| == 0 ==> r == Err(BadRequest("Missing orderedIds"))
      ensures Trim(projectIdRaw) != "" && status.Some? && |orderedIds| > 0
              && RequireProjectAccess(projects, members, Trim(projectIdRaw), userId).Err? ==>
                r == Err(RequireProjectAccess(projects, members, Trim(projectIdRaw), userId).error)
      ensures Trim(projectIdRaw) != "" && status.Some? && |orderedIds| > 0
              && RequireProjectAccess(projects, members, Trim(projectIdRaw), userId).Ok?
              && !AllInColumn(old(tasks), Trim(projectIdRaw), status.value, orderedIds) ==>
                r == Err(BadRequest("orderedIds contains invalid task id"))
      ensures r.Ok? <==>
        Trim(projectIdRaw) != "" && status.Some? && |orderedIds| > 0
        && RequireProjectAccess(projects, members, Trim(projectIdRaw), userId).Ok?
        && AllInColumn(old(tasks), Trim(projectIdRaw), status.value, orderedIds)
      ensures r.Ok? ==> tasks == Renumber(old(tasks), orderedIds)
    {
      var projectId := Trim(projectIdRaw);
      if projectId == "" {
        return Err(BadRequest("Missing projectId"));
      }
      if status.None? {
        return Err(BadRequest("Missing status"));
      }
      if |orderedIds| == 0 {
        return Err(BadRequest("Missing orderedIds"));
      }
      var access := RequireProjectAccess(projects, members, projectId, userId);
      if access.Err? {
        return Err(access.error);
      }
      var ok := CheckIds(projectId, status.value, orderedIds);
      if !ok {
        return Err(BadRequest("orderedIds contains invalid task id"));
      }
      WritePositions(orderedIds);
      return Ok(());
    }

    /** The validation step of `bulk_reorder`: every id must be one of the
        tasks the column lists. */
    method CheckIds(projectId: string, status: Status, ids: seq<string>) returns (ok: bool)
      ensures ok <==> AllInColumn(tasks, projectId, status, ids)
    {
      var column := ListColumn(projectId, status);
      var known := set i | 0 <= i < |column| :: column[i];
      for i := 0 to |ids|
        invariant forall j :: 0 <= j < i ==> ids[j] in tasks && InColumn(tasks[ids[j]], projectId, status)
      {
        if ids[i] !in known {
          assert !(ids[i] in tasks && InColumn(tasks[ids[i]], projectId, status));
          return false;
        }
      }
      return true;
    }

    /** POST `delete` and DELETE: 400 for a missing project id or task id,
        the access check, 404 when the named task is not in the project; then the
        task is removed and its column reindexed. */
    method DeleteTask(userId: string, projects: map<string, A.Project>, members: A.Members,
                      projectIdRaw: string, idRaw: string) returns (r: Result<()>, ghost listing: seq<string>)
      requires Valid()
      modifies this
      ensures Valid()
      ensures r.Err? ==> tasks == old(tasks)
      ensures Trim(projectIdRaw) == "" ==> r == Err(BadRequest("Missing projectId"))
      ensures Trim(projectIdRaw) != "" && Trim(idRaw) == "" ==> r == Err(BadRequest("Missing id"))
      ensures Trim(projectIdRaw) != "" && Trim(idRaw) != ""
              && RequireProjectAccess(projects, members, Trim(projectIdRaw), userId).Err? ==>
                r == Err(RequireProjectAccess(projects, members, Trim(projectIdRaw), userId).error)
      ensures r.Ok? <==>
        Trim(projectIdRaw) != "" && Trim(idRaw) != ""
        && RequireProjectAccess(projects, members, Trim(projectIdRaw), userId).Ok?
        && Trim(idRaw) in old(tasks) && old(tasks)[Trim(idRaw)].projectId == Trim(projectIdRaw)
      ensures r.Err? && Trim(projectIdRaw) != "" && Trim(idRaw) != ""
              && RequireProjectAccess(projects, members, Trim(projectIdRaw), userId).Ok? ==>
                r == Err(NotFound("Task not found"))
      ensures r.Ok? ==>
        var id := Trim(idRaw);
        IsListing(old(tasks) - {id}, Trim(projectIdRaw), old(tasks)[id].status, listing)
        && tasks == Renumber(old(tasks) - {id}, listing)
    {
      listing := [];
      var projectId := Trim(projectIdRaw);
      var id := Trim(idRaw);
      if projectId == "" {
        r := Err(BadRequest("Missing projectId"));
        return;
      }
      if id == "" {
        r := Err(BadRequest("Missing id"));
        return;
      }
      var access := RequireProjectAccess(projects, members, projectId, userId);
      if access.Err? {
        r := Err(access.error);
        return;
      }
      if id !in tasks || tasks[id].projectId != projectId {
        r := Err(NotFound("Task not found"));
        return;
      }
      var status := tasks[id].status;
      tasks := tasks - {id};
      listing := ReindexColumn(projectId, status);
      r := Ok(());
    }

    /** PATCH: 400 without an id, 404 for an unknown task, the access check
        on the patched task's project, 400 for an assignee outside the project. A
        status change puts the patched task after every task of the new column and
        reindexes the old one; otherwise the position is left alone. */
    method PatchTask(userId: string, projects: map<string, A.Project>, members: A.Members,
                     body: PatchBody, parseDate: string -> int)
      returns (r: Result<Task>, ghost max: int, ghost listing: seq<string>)
      requires Valid()
      modifies this
      ensures Valid()
      ensures r.Err? ==> tasks == old(tasks)
      ensures Trim(body.id) == "" ==> r == Err(BadRequest("Missing id"))
      ensures Trim(body.id) != "" && Trim(body.id) !in old(tasks) ==> r == Err(NotFound("Task not found"))
      ensures Trim(body.id) != "" && Trim(body.id) in old(tasks)
              && RequireProjectAccess(projects, members, old(tasks)[Trim(body.id)].projectId, userId).Err? ==>
                r == Err(RequireProjectAccess(projects, members, old(tasks)[Trim(body.id)].projectId, userId).error)
      ensures Trim(body.id) != "" && Trim(body.id) in old(tasks)
              && RequireProjectAccess(projects, members, old(tasks)[Trim(body.id)].projectId, userId).Ok?
              && PatchAssignee(body) != ""
              && !AssigneeInProject(projects, members, old(tasks)[Trim(body.id)].projectId, PatchAssignee(body)) ==>
                r == Err(BadRequest("Assignee is not in project"))
      ensures r.Ok? <==>
        Trim(body.id) != "" && Trim(body.id) in old(tasks)
        && RequireProjectAccess(projects, members, old(tasks)[Trim(body.id)].projectId, userId).Ok?
        && (PatchAssignee(body) == ""
            || AssigneeInProject(projects, members, old(tasks)[Trim(body.id)].projectId, PatchAssignee(body)))
      ensures r.Ok? ==>
        var id := Trim(body.id);
        var e := old(tasks)[id];
        var patched := ApplyPatch(e, DecodePatch(body, parseDate));
        id in tasks && r.value == tasks[id]
        && (if body.status.Some? && body.status.value != e.status then
              var moved := patched.(status := body.status.value, position := max + 1);
              IsMaxPosition(old(tasks), e.projectId, body.status.value, max)
              && IsListing(old(tasks)[id := moved], e.projectId, e.status, listing)
              && tasks == Renumber(old(tasks)[id := moved], listing)
            else
              tasks == old(tasks)[id := patched])
    {
      max, listing := -1, [];
      var id := Trim(body.id);
      if id == "" {
        r := Err(BadRequest("Missing id"));
        return;
      }
      if id !in tasks {
        r := Err(NotFound("Task not found"));
        return;
      }
      var existing := tasks[id];
      var access := RequireProjectAccess(projects, members, existing.projectId, userId);
      if access.Err? {
        r := Err(access.error);
        return;
      }
      var assigneeId := PatchAssignee(body);
      if assigneeId != "" && !AssigneeInProject(projects, members, existing.projectId, assigneeId) {
        r := Err(BadRequest("Assignee is not in project"));
        return;
      }
      var patched := ApplyPatch(existing, DecodePatch(body, parseDate));
      if body.status.Some? && body.status.value != existing.status {
        max, listing := ChangeColumn(patched.(status := body.status.value));
      } else {
        tasks := tasks[id := patched];
      }
      r := Ok(tasks[id]);
    }
  }

  // ---------------------------------------------------------------------
  // Properties of the handlers' effects

  /** A created task lands after every task of its column, at 0 in an empty
      column, and in a dense column at the next free slot, which keeps the
      column dense. */
  lemma CreateAppends(tasks: Tasks, t: Task, ids: seq<string>)
    requires t.id !in tasks && IsMaxPosition(tasks, t.projectId, t.status, t.position - 1)
    requires IsListing(tasks, t.projectId, t.status, ids) && Dense(tasks, ids)
    ensures forall id :: id in tasks && InColumn(tasks[id], t.projectId, t.status) ==> tasks[id].position < t.position
    ensures ColumnEmpty(tasks, t.projectId, t.status) ==> t.position == 0
    ensures t.position == |ids|
    ensures IsListing(tasks[t.id := t], t.projectId, t.status, ids + [t.id]) && Dense(tasks[t.id := t], ids + [t.id])
  {
    AfterMaxIsLast(tasks, t.projectId, t.status, t.position - 1);
    DenseMax(tasks, t.projectId, t.status, ids, t.position - 1);
    AppendKeepsDense(tasks, t.projectId, t.status, ids, t);
  }

}
