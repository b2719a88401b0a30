/**
 * The request handlers of routes/api.js for tasks and projects, over an
 * in-memory store. Only their filtering, pagination and update logic is
 * modelled; the HTTP layer is reduced to a `Response` value. A request field
 * that JavaScript treats as falsy is written "" (or None); a field that the
 * handler tests with `!== undefined` is an Option.
 */
module Api {
  import opened Text
  import opened Collections
  import TaskModel
  import ProjectModel
  import Pagination

  type Time = TaskModel.Time
  type TaskId = TaskModel.TaskId
  type ProjectId = ProjectModel.ProjectId
  type TaskRecord = TaskModel.TaskRecord
  type ProjectRecord = ProjectModel.ProjectRecord

  /**
   * What a handler answers: 200, 201, 400, 404, or the 500 that a failed
   * validation in `save()` turns into through the handler's catch block.
   */
  datatype Response = Ok | Created | BadRequest | NotFound | ValidationFailed

  /** `value || fallback` for a string. */
  function OrDefault(value: string, fallback: string): (r: string)
    ensures value != "" ==> r == value
    ensures value == "" ==> r == fallback
  {
    if value != "" then value else fallback
  }

  // ================================================================ tasks

  /** The body of POST /tarefas. */
  datatype NewTaskRequest = NewTaskRequest(
    title: string,
    description: string,
    priority: string,
    category: string,
    dueDate: Option<Time>)

  /** The task `new Task({...})` builds from a request whose title is not blank. */
  function NewTask(req: NewTaskRequest, id: TaskId, now: Time): (t: TaskRecord)
  {
    TaskModel.TaskRecord(
      id,
      Trim(req.title),
      if req.description != "" then Trim(req.description) else TaskModel.DefaultDescription,
      OrDefault(req.priority, TaskModel.DefaultPriority),
      OrDefault(req.category, TaskModel.DefaultCategory),
      req.dueDate,
      false, None, now, now)
  }

  /**
   * What creation stores: the trimmed title and description, the defaults for
   * what the request leaves out, a pending task with no completedAt, and the
   * creation time in both timestamps.
   */
  lemma NewTaskFields(req: NewTaskRequest, id: TaskId, now: Time)
    ensures var t := NewTask(req, id, now);
      && t.id == id && t.title == Trim(req.title)
      && t.description == (if req.description != "" then Trim(req.description) else "")
      && (req.priority != "" ==> t.priority == req.priority)
      && (req.priority == "" ==> t.priority == "medium")
      && (req.category != "" ==> t.category == req.category)
      && (req.category == "" ==> t.category == "work")
      && t.dueDate == req.dueDate
      && !t.completed && t.completedAt == None
      && t.createdAt == now && t.updatedAt == now
      && TaskModel.CompletionConsistent(t)
  {
  }

  /** Creation passes validation exactly when each request field does (after trimming and defaults). */
  lemma NewTaskValidIff(req: NewTaskRequest, id: TaskId, now: Time)
    ensures TaskModel.Validates(NewTask(req, id, now), now) <==>
      && TaskModel.ValidTitle(Trim(req.title))
      && TaskModel.ValidDescription(Trim(req.description))
      && TaskModel.ValidPriority(OrDefault(req.priority, TaskModel.DefaultPriority))
      && TaskModel.ValidCategory(OrDefault(req.category, TaskModel.DefaultCategory))
      && TaskModel.ValidDueDate(req.dueDate, now)
  {
    assert Trim("") == "";
  }

  /** The body of PUT /tarefas/:id: None is a field the request leaves out. */
  datatype TaskPatch = TaskPatch(
    title: Option<string>,
    description: Option<string>,
    priority: Option<string>,
    category: Option<string>,
    dueDate: Option<Option<Time>>,
    completed: Option<bool>)

  /** The field assignments of PUT /tarefas/:id, before the save. */
  function Patched(t: TaskRecord, p: TaskPatch): (u: TaskRecord)
    ensures u.id == t.id && u.createdAt == t.createdAt && u.updatedAt == t.updatedAt
    ensures u.completedAt == t.completedAt
  {
    t.(title := if p.title.Some? then Trim(p.title.value) else t.title,
       description := if p.description.Some? then Trim(p.description.value) else t.description,
       priority := if p.priority.Some? then p.priority.value else t.priority,
       category := if p.category.Some? then p.category.value else t.category,
       dueDate := if p.dueDate.Some? then p.dueDate.value else t.dueDate,
       completed := if p.completed.Some? then p.completed.value else t.completed)
  }

  /** A stored task after a successful PUT: the patch, then the pre-save hook. */
  function UpdatedTask(t: TaskRecord, p: TaskPatch, now: Time): (u: TaskRecord)
  {
    TaskModel.Stamp(Patched(t, p), t.completed, now)
  }

  /**
   * Partial-update semantics: a field the request leaves out keeps its value,
   * one it gives is overwritten (title and description trimmed); the
   * completedAt bookkeeping still holds afterwards.
   */
  lemma {:induction false} UpdateTouchesOnlyGivenFields(t: TaskRecord, p: TaskPatch, now: Time)
    requires TaskModel.PendingHasNoCompletionTime(t)
    ensures var u := UpdatedTask(t, p, now);
      && u.id == t.id && u.createdAt == t.createdAt && u.updatedAt == now
      && (p.title.None? ==> u.title == t.title)
      && (p.title.Some? ==> u.title == Trim(p.title.value))
      && (p.description.None? ==> u.description == t.description)
      && (p.description.Some? ==> u.description == Trim(p.description.value))
      && (p.priority.None? ==> u.priority == t.priority)
      && (p.priority.Some? ==> u.priority == p.priority.value)
      && (p.category.None? ==> u.category == t.category)
      && (p.category.Some? ==> u.category == p.category.value)
      && (p.dueDate.None? ==> u.dueDate == t.dueDate)
      && (p.dueDate.Some? ==> u.dueDate == p.dueDate.value)
      && (p.completed.None? ==> u.completed == t.completed && u.completedAt == t.completedAt)
      && (p.completed.Some? ==> u.completed == p.completed.value)
      && TaskModel.PendingHasNoCompletionTime(u)
      && (TaskModel.CompletionConsistent(t) ==> TaskModel.CompletionConsistent(u))
  {
    TaskModel.StampKeepsPendingClear(Patched(t, p), t.completed, now);
    if TaskModel.CompletionConsistent(t) {
      TaskModel.StampKeepsConsistency(Patched(t, p), t.completed, now);
    }
  }

  /** Updating only the priority leaves everything but priority and updatedAt as it was. */
  lemma PriorityOnlyUpdate(t: TaskRecord, priority: string, now: Time)
    ensures UpdatedTask(t, TaskPatch(None, None, Some(priority), None, None, None), now)
         == t.(priority := priority, updatedAt := now)
  {
  }

  /** `deleteMany({ completed: true })` keeps the pending tasks, in order. */
  function PendingTasks(s: seq<TaskRecord>): (r: seq<TaskRecord>)
    ensures forall t :: t in r <==> t in s && !t.completed
  {
    var r := Filter(s, TaskModel.IsPending);
    forall t ensures t in r <==> t in s && !t.completed {
      FilterMembers(s, TaskModel.IsPending, t);
    }
    r
  }

  /** Delete-completed removes exactly the completed tasks: as many as getStats counts. */
  lemma {:induction false} PendingTasksCount(s: seq<TaskRecord>)
    ensures |PendingTasks(s)| == TaskModel.CountPending(s)
    ensures |s| - |PendingTasks(s)| == TaskModel.CountCompleted(s)
  {
    if s != [] {
      PendingTasksCount(s[1..]);
      assert Filter(s, TaskModel.IsPending) ==
        if !s[0].completed then [s[0]] + Filter(s[1..], TaskModel.IsPending) else Filter(s[1..], TaskModel.IsPending);
    }
    TaskModel.CountsAddUp(s);
  }

  /** The list handler's defaults for an omitted `page` and `limit`. */
  const DefaultPage := 1
  const DefaultPageSize := 10

  /** The task collection behind the /tarefas handlers. */
  class TaskStore {
    var tasks: seq<TaskRecord>
    /** The next identifier to hand out; stands for the store's ObjectId generation. */
    var nextId: TaskId

    ghost predicate Valid()
      reads this
    {
      StoreInvariant(tasks, TaskModel.IdOf, TaskModel.Stored, nextId)
    }

    constructor ()
      ensures Valid() && tasks == []
    {
      tasks := [];
      nextId := 0;
    }

    /** GET /tarefas, lines assembling `query` one parameter at a time. */
    static method BuildListQuery(search: string, status: string, priority: string, category: string)
      returns (query: TaskModel.TaskQuery)
      ensures query == TaskModel.SearchQuery(search, status, priority, category)
    {
      query := TaskModel.TaskQuery(None, None, None, None);
      if search != "" {
        query := query.(text := Some(search));
      }
      if status == "completed" {
        query := query.(completed := Some(true));
      } else if status == "pending" {
        query := query.(completed := Some(false));
      }
      if priority != "" {
        query := query.(priority := Some(priority));
      }
      if category != "" {
        query := query.(category := Some(category));
      }
    }

    /**
     * GET /tarefas: the page-th window of `limit` matches, newest first, with
     * the number of all matches and the page count. An omitted page is 1 and
     * an omitted limit is 10.
     */
    method List(search: string, status: string, priority: string, category: string,
                pageParam: Option<nat>, limitParam: Option<nat>)
      returns (data: seq<TaskRecord>, total: nat, page: nat, limit: nat, pages: nat)
      requires pageParam.None? || pageParam.value >= 1
      requires limitParam.None? || limitParam.value >= 1
      ensures page == (if pageParam.Some? then pageParam.value else DefaultPage)
      ensures limit == (if limitParam.Some? then limitParam.value else DefaultPageSize)
      ensures page >= 1 && limit >= 1
      ensures data == Pagination.PageOf(TaskModel.SearchTasks(tasks, search, status, priority, category),
                                        Pagination.Skip(page, limit), limit)
      ensures total == |TaskModel.MatchingTasks(tasks, TaskModel.SearchQuery(search, status, priority, category))|
      ensures total == |TaskModel.SearchTasks(tasks, search, status, priority, category)|
      ensures pages == Pagination.PageCount(total, limit)
      ensures |data| <= limit
      ensures Pagination.Skip(page, limit) >= total ==> data == []
      ensures forall t :: t in data ==> t in tasks && TaskModel.Matches(TaskModel.SearchQuery(search, status, priority, category), t)
    {
      page := if pageParam.Some? then pageParam.value else DefaultPage;
      limit := if limitParam.Some? then limitParam.value else DefaultPageSize;
      var query := BuildListQuery(search, status, priority, category);
      var skip := Pagination.Skip(page, limit);
      var matching := TaskModel.MatchingTasks(tasks, query);
      var sorted := TaskModel.NewestFirst(matching);
      SortDescSameElements(matching, TaskModel.CreatedAt);
      data := Pagination.PageOf(sorted, skip, limit);
      total := |matching|;
      pages := Pagination.PageCount(total, limit);
      Pagination.PageMembers(sorted, skip, limit);
    }

    /** POST /tarefas */
    method Create(req: NewTaskRequest, now: Time) returns (response: Response)
      requires Valid()
      modifies this
      ensures Valid()
      ensures response == BadRequest <==> Trim(req.title) == []
      ensures response == ValidationFailed <==>
                Trim(req.title) != [] && !TaskModel.Validates(NewTask(req, old(nextId), now), now)
      ensures response == Created ==> tasks == old(tasks) + [NewTask(req, old(nextId), now)]
      ensures response != Created ==> tasks == old(tasks)
      ensures response == Created || response == BadRequest || response == ValidationFailed
    {
      if Trim(req.title) == [] {
        return BadRequest;
      }
      var doc := new TaskModel.TaskDocument.New(
        nextId,
        Trim(req.title),
        if req.description != "" then Trim(req.description) else TaskModel.DefaultDescription,
        OrDefault(req.priority, TaskModel.DefaultPriority),
        OrDefault(req.category, TaskModel.DefaultCategory),
        req.dueDate,
        now);
      ghost var created := NewTask(req, nextId, now);
      assert doc.Snapshot() == created;
      var ok := doc.Save(now);
      if !ok {
        return ValidationFailed;
      }
      assert doc.Snapshot() == created;
      StoreAppend(tasks, TaskModel.IdOf, TaskModel.Stored, nextId, created);
      tasks := tasks + [doc.Snapshot()];
      nextId := nextId + 1;
      response := Created;
    }

    /** The field assignments PUT /tarefas/:id makes on the loaded document. */
    static method AssignFields(doc: TaskModel.TaskDocument, patch: TaskPatch)
      modifies doc
      ensures doc.Snapshot() == Patched(old(doc.Snapshot()), patch)
      ensures doc.storedCompleted == old(doc.storedCompleted)
    {
      ghost var target := Patched(doc.Snapshot(), patch);
      if patch.title.Some? {
        doc.title := Trim(patch.title.value);
      }
      assert doc.title == target.title;
      if patch.description.Some? {
        doc.description := Trim(patch.description.value);
      }
      assert doc.description == target.description;
      if patch.priority.Some? {
        doc.priority := patch.priority.value;
      }
      if patch.category.Some? {
        doc.category := patch.category.value;
      }
      if patch.dueDate.Some? {
        doc.dueDate := patch.dueDate.value;
      }
      if patch.completed.Some? {
        doc.completed := patch.completed.value;
      }
    }

    /** PUT /tarefas/:id */
    method Update(id: TaskId, patch: TaskPatch, now: Time) returns (response: Response)
      requires Valid()
      modifies this
      ensures Valid()
      ensures match IndexOf(old(tasks), TaskModel.IdOf, id)
        case None => response == NotFound && tasks == old(tasks)
        case Some(i) =>
          && (response == Ok <==> TaskModel.Validates(Patched(old(tasks)[i], patch), now))
          && (response == Ok ==> tasks == old(tasks)[i := UpdatedTask(old(tasks)[i], patch, now)])
          && (response != Ok ==> response == ValidationFailed && tasks == old(tasks))
    {
      var found := IndexOf(tasks, TaskModel.IdOf, id);
      if found.None? {
        return NotFound;
      }
      var i := found.value;
      var doc := new TaskModel.TaskDocument.Load(tasks[i]);
      AssignFields(doc, patch);
      var ok := doc.Save(now);
      if !ok {
        return ValidationFailed;
      }
      TaskModel.StampKeepsPendingClear(Patched(tasks[i], patch), tasks[i].completed, now);
      StoreReplace(tasks, TaskModel.IdOf, TaskModel.Stored, nextId, i, doc.Snapshot());
      tasks := tasks[i := doc.Snapshot()];
      response := Ok;
    }

    /** DELETE /tarefas/:id */
    method Delete(id: TaskId) returns (response: Response)
      requires Valid()
      modifies this
      ensures Valid()
      ensures match IndexOf(old(tasks), TaskModel.IdOf, id)
        case None => response == NotFound && tasks == old(tasks)
        case Some(i) => response == Ok && tasks == old(tasks)[..i] + old(tasks)[i + 1..]
      ensures forall t :: t in tasks <==> t in old(tasks) && t.id != id
    {
      var found := IndexOf(tasks, TaskModel.IdOf, id);
      if found.None? {
        return NotFound;
      }
      var i := found.value;
      StoreRemove(tasks, TaskModel.IdOf, TaskModel.Stored, nextId, i);
      tasks := tasks[..i] + tasks[i + 1..];
      response := Ok;
    }

    /** PATCH /tarefas/:id/toggle */
    method Toggle(id: TaskId, now: Time) returns (response: Response)
      requires Valid()
      modifies this
      ensures Valid()
      ensures match IndexOf(old(tasks), TaskModel.IdOf, id)
        case None => response == NotFound && tasks == old(tasks)
        case Some(i) =>
          && (response == Ok <==> TaskModel.Validates(old(tasks)[i], now))
          && (response == Ok ==> tasks == old(tasks)[i := TaskModel.Stamp(TaskModel.Toggled(old(tasks)[i]), old(tasks)[i].completed, now)])
          && (response != Ok ==> response == ValidationFailed && tasks == old(tasks))
    {
      var found := IndexOf(tasks, TaskModel.IdOf, id);
      if found.None? {
        return NotFound;
      }
      var i := found.value;
      var doc := new TaskModel.TaskDocument.Load(tasks[i]);
      var ok := doc.ToggleComplete(now);
      if !ok {
        return ValidationFailed;
      }
      TaskModel.StampKeepsPendingClear(TaskModel.Toggled(tasks[i]), tasks[i].completed, now);
      StoreReplace(tasks, TaskModel.IdOf, TaskModel.Stored, nextId, i, doc.Snapshot());
      tasks := tasks[i := doc.Snapshot()];
      response := Ok;
    }

    /** DELETE /tarefas/completed: succeeds with deletedCount 0 when nothing is completed. */
    method DeleteCompleted() returns (deletedCount: nat)
      requires Valid()
      modifies this
      ensures Valid()
      ensures tasks == PendingTasks(old(tasks))
      ensures deletedCount == TaskModel.CountCompleted(old(tasks))
    {
      var before := tasks;
      tasks := PendingTasks(tasks);
      PendingTasksCount(before);
      deletedCount := |before| - |tasks|;
      StoreFilter(before, TaskModel.IdOf, TaskModel.Stored, nextId, TaskModel.IsPending);
    }
  }

  // ================================================================ projects

  /** The body of POST /projetos; `tasks` None is an absent or null list. */
  datatype NewProjectRequest = NewProjectRequest(name: string, description: string, tasks: Option<seq<TaskId>>)

  /** The project `new Project({...})` builds from a request whose name is not blank. */
  function NewProject(req: NewProjectRequest, id: ProjectId, now: Time): (p: ProjectRecord)
    ensures p.id == id && p.name == Trim(req.name)
    ensures p.description == if req.description != "" then Trim(req.description) else ""
    ensures req.tasks.None? ==> p.tasks == Some([])
    ensures req.tasks.Some? ==> p.tasks == req.tasks
    ensures p.createdAt == now && p.updatedAt == now
  {
    ProjectModel.ProjectRecord(
      id,
      Trim(req.name),
      if req.description != "" then Trim(req.description) else ProjectModel.DefaultDescription,
      Some(if req.tasks.Some? then req.tasks.value else []),
      now, now)
  }

  /** Creation passes validation exactly when the trimmed name and description do. */
  lemma NewProjectValidIff(req: NewProjectRequest, id: ProjectId, now: Time)
    ensures ProjectModel.Validates(NewProject(req, id, now)) <==>
      ProjectModel.ValidName(Trim(req.name)) && ProjectModel.ValidDescription(Trim(req.description))
  {
    assert Trim("") == "";
  }

  /** The body of PUT /projetos/:id: None is a field the request leaves out. */
  datatype ProjectPatch = ProjectPatch(
    name: Option<string>,
    description: Option<string>,
    tasks: Option<Option<seq<TaskId>>>)

  /** The field assignments of PUT /projetos/:id, before the save. */
  function PatchedProject(p: ProjectRecord, patch: ProjectPatch): (u: ProjectRecord)
    ensures u.id == p.id && u.createdAt == p.createdAt && u.updatedAt == p.updatedAt
  {
    p.(name := if patch.name.Some? then Trim(patch.name.value) else p.name,
       description := if patch.description.Some? then Trim(patch.description.value) else p.description,
       tasks := if patch.tasks.Some? then patch.tasks.value else p.tasks)
  }

  /** The field assignments of PUT /projetos/:id followed by the pre-save hook. */
  function UpdatedProject(p: ProjectRecord, patch: ProjectPatch, now: Time): (u: ProjectRecord)
    ensures u.id == p.id && u.createdAt == p.createdAt && u.updatedAt == now
    ensures patch.name.None? ==> u.name == p.name
    ensures patch.name.Some? ==> u.name == Trim(patch.name.value)
    ensures patch.description.None? ==> u.description == p.description
    ensures patch.description.Some? ==> u.description == Trim(patch.description.value)
    ensures patch.tasks.None? ==> u.tasks == p.tasks
    ensures patch.tasks.Some? ==> u.tasks == patch.tasks.value
  {
    PatchedProject(p, patch).(updatedAt := now)
  }

  /** The project collection behind the /projetos handlers. */
  class ProjectStore {
    var projects: seq<ProjectRecord>
    var nextId: ProjectId

    ghost predicate Valid()
      reads this
    {
      StoreInvariant(projects, ProjectModel.IdOf, ProjectModel.Validates, nextId)
    }

    constructor ()
      ensures Valid() && projects == []
    {
      projects := [];
      nextId := 0;
    }

    /** POST /projetos */
    method Create(req: NewProjectRequest, now: Time) returns (response: Response)
      requires Valid()
      modifies this
      ensures Valid()
      ensures response == BadRequest <==> Trim(req.name) == []
      ensures response == ValidationFailed <==>
                Trim(req.name) != [] && !ProjectModel.Validates(NewProject(req, old(nextId), now))
      ensures response == Created ==> projects == old(projects) + [NewProject(req, old(nextId), now)]
      ensures response != Created ==> projects == old(projects)
      ensures response == Created || response == BadRequest || response == ValidationFailed
    {
      var name := Trim(req.name);
      if name == [] {
        return BadRequest;
      }
      ghost var created := NewProject(req, nextId, now);
      var description := if req.description != "" then Trim(req.description) else ProjectModel.DefaultDescription;
      var taskIds := if req.tasks.Some? then req.tasks.value else [];
      assert created == ProjectModel.ProjectRecord(nextId, name, description, Some(taskIds), now, now);
      var doc := new ProjectModel.ProjectDocument.New(nextId, name, description, taskIds, now);
      var ok := doc.Save(now);
      if !ok {
        return ValidationFailed;
      }
      assert doc.Snapshot() == created;
      StoreAppend(projects, ProjectModel.IdOf, ProjectModel.Validates, nextId, created);
      projects := projects + [doc.Snapshot()];
      nextId := nextId + 1;
      response := Created;
    }

    /** The field assignments PUT /projetos/:id makes on the loaded document. */
    static method AssignFields(doc: ProjectModel.ProjectDocument, patch: ProjectPatch)
      modifies doc
      ensures doc.Snapshot() == PatchedProject(old(doc.Snapshot()), patch)
    {
      if patch.name.Some? {
        doc.name := Trim(patch.name.value);
      }
      if patch.description.Some? {
        doc.description := Trim(patch.description.value);
      }
      if patch.tasks.Some? {
        doc.tasks := patch.tasks.value;
      }
    }

    /** PUT /projetos/:id */
    method Update(id: ProjectId, patch: ProjectPatch, now: Time) returns (response: Response)
      requires Valid()
      modifies this
      ensures Valid()
      ensures match IndexOf(old(projects), ProjectModel.IdOf, id)
        case None => response == NotFound && projects == old(projects)
        case Some(i) =>
          && (response == Ok <==> ProjectModel.Validates(UpdatedProject(old(projects)[i], patch, now)))
          && (response == Ok ==> projects == old(projects)[i := UpdatedProject(old(projects)[i], patch, now)])
          && (response != Ok ==> response == ValidationFailed && projects == old(projects))
    {
      var found := IndexOf(projects, ProjectModel.IdOf, id);
      if found.None? {
        return NotFound;
      }
      var i := found.value;
      var doc := new ProjectModel.ProjectDocument.Load(projects[i]);
      AssignFields(doc, patch);
      var ok := doc.Save(now);
      if !ok {
        return ValidationFailed;
      }
      StoreReplace(projects, ProjectModel.IdOf, ProjectModel.Validates, nextId, i, doc.Snapshot());
      projects := projects[i := doc.Snapshot()];
      response := Ok;
    }

    /** DELETE /projetos/:id: the project's tasks stay where they are. */
    method Delete(id: ProjectId) returns (response: Response)
      requires Valid()
      modifies this
      ensures Valid()
      ensures match IndexOf(old(projects), ProjectModel.IdOf, id)
        case None => response == NotFound && projects == old(projects)
        case Some(i) => response == Ok && projects == old(projects)[..i] + old(projects)[i + 1..]
      ensures forall p :: p in projects <==> p in old(projects) && p.id != id
    {
      var found := IndexOf(projects, ProjectModel.IdOf, id);
      if found.None? {
        return NotFound;
      }
      var i := found.value;
      StoreRemove(projects, ProjectModel.IdOf, ProjectModel.Validates, nextId, i);
      projects := projects[..i] + projects[i + 1..];
      response := Ok;
    }
  }
}
