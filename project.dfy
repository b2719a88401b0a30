/**
 * The Project entity (models/Project.js): name and description validation,
 * the pre-save hook, the taskCount virtual, the instance methods that edit the
 * `tasks` reference list, and searchProjects over an in-memory collection.
 * Project.tasks holds Task identifiers by reference: nothing here touches a Task.
 */
module ProjectModel {
  import opened Text
  import opened Collections
  import TaskModel

  type Time = TaskModel.Time
  type TaskId = TaskModel.TaskId
  type ProjectId = nat

  const MaxNameLength := 100
  const MaxDescriptionLength := 1000
  const DefaultDescription := ""

  /**
   * A project document as the store holds it. `tasks` is None when a request
   * stored `null` in it; the schema otherwise starts it as the empty list.
   */
  datatype ProjectRecord = ProjectRecord(
    id: ProjectId,
    name: string,
    description: string,
    tasks: Option<seq<TaskId>>,
    createdAt: Time,
    updatedAt: Time)

  function IdOf(p: ProjectRecord): nat { p.id }
  function CreatedAt(p: ProjectRecord): int { p.createdAt }

  // ---------------------------------------------------------------- validation

  /** `required`, `minlength: 1` and `maxlength: 100` on the (already trimmed) name. */
  predicate ValidName(name: string) { 1 <= |name| <= MaxNameLength }
  predicate ValidDescription(description: string) { |description| <= MaxDescriptionLength }

  /** What `save()` validates. */
  predicate Validates(p: ProjectRecord)
  {
    ValidName(p.name) && ValidDescription(p.description)
  }

  /** The project schema's rules with their constants written out. */
  lemma ValidationRules(p: ProjectRecord)
    ensures Validates(p) <==> 1 <= |p.name| <= 100 && |p.description| <= 1000
  {
  }

  // ---------------------------------------------------------------- taskCount

  /** The taskCount virtual: the length of `tasks`, 0 when it is missing. */
  function TaskCount(p: ProjectRecord): (n: nat)
    ensures p.tasks.None? ==> n == 0
    ensures p.tasks.Some? ==> n == |p.tasks.value|
  {
    match p.tasks
    case None => 0
    case Some(ts) => |ts|
  }

  // ---------------------------------------------------------------- the reference list

  /** addTask's list update: append the identifier unless it is already there. */
  function WithTask(ts: seq<TaskId>, id: TaskId): (r: seq<TaskId>)
    ensures id in r
    ensures id in ts ==> r == ts
    ensures id !in ts ==> r == ts + [id]
  {
    if id in ts then ts else ts + [id]
  }

  /** removeTask's list update: `filter(x => x !== id)`. */
  function WithoutTask(ts: seq<TaskId>, id: TaskId): (r: seq<TaskId>)
    ensures id !in r
    ensures forall x :: x in r <==> x in ts && x != id
  {
    var r := Filter(ts, x => x != id);
    forall x ensures x in r <==> x in ts && x != id {
      FilterMembers(ts, x => x != id, x);
    }
    r
  }

  predicate NoDuplicates(ts: seq<TaskId>)
  {
    forall i, j :: 0 <= i < j < |ts| ==> ts[i] != ts[j]
  }

  /** Adding is idempotent, never introduces a duplicate, and grows the list by at most one. */
  lemma AddTaskProperties(ts: seq<TaskId>, id: TaskId)
    ensures WithTask(WithTask(ts, id), id) == WithTask(ts, id)
    ensures NoDuplicates(ts) ==> NoDuplicates(WithTask(ts, id))
    ensures |WithTask(ts, id)| == if id in ts then |ts| else |ts| + 1
    ensures WithTask(ts, id)[..|ts|] == ts
  {
  }

  /** Removing an identifier that is absent changes nothing. */
  lemma {:induction false} RemoveAbsentIsNoOp(ts: seq<TaskId>, id: TaskId)
    requires id !in ts
    ensures WithoutTask(ts, id) == ts
  {
    FilterKeepsAll(ts, x => x != id);
  }

  /** Removal keeps the relative order of the other identifiers: it distributes over concatenation. */
  lemma {:induction false} RemoveKeepsOrder(a: seq<TaskId>, b: seq<TaskId>, id: TaskId)
    ensures WithoutTask(a + b, id) == WithoutTask(a, id) + WithoutTask(b, id)
  {
    FilterAppend(a, b, x => x != id);
  }

  /** Removing what was just added restores the list. */
  lemma {:induction false} RemoveUndoesAdd(ts: seq<TaskId>, id: TaskId)
    requires id !in ts
    ensures WithoutTask(WithTask(ts, id), id) == ts
  {
    RemoveKeepsOrder(ts, [id], id);
    RemoveAbsentIsNoOp(ts, id);
    assert Filter([id], x => x != id) == [];
  }

  /**
   * How the list edits move taskCount: adding grows it by one exactly when the
   * identifier is new, removing never grows it and leaves it alone for an
   * absent identifier, and clearing brings it to 0.
   */
  lemma {:induction false} TaskCountAfterEdits(p: ProjectRecord, id: TaskId)
    requires p.tasks.Some?
    ensures TaskCount(p.(tasks := Some(WithTask(p.tasks.value, id)))) ==
              if id in p.tasks.value then TaskCount(p) else TaskCount(p) + 1
    ensures TaskCount(p.(tasks := Some(WithoutTask(p.tasks.value, id)))) <= TaskCount(p)
    ensures id !in p.tasks.value ==> TaskCount(p.(tasks := Some(WithoutTask(p.tasks.value, id)))) == TaskCount(p)
    ensures id in p.tasks.value ==> TaskCount(p.(tasks := Some(WithoutTask(p.tasks.value, id)))) < TaskCount(p)
    ensures TaskCount(p.(tasks := Some([]))) == 0
  {
    var ts := p.tasks.value;
    RemoveCount(ts, id);
    if id !in ts {
      RemoveAbsentIsNoOp(ts, id);
    }
  }

  /** Filtering out `id` shortens the list exactly when `id` is in it. */
  lemma {:induction false} RemoveCount(ts: seq<TaskId>, id: TaskId)
    ensures |WithoutTask(ts, id)| <= |ts|
    ensures id in ts ==> |WithoutTask(ts, id)| < |ts|
  {
    if ts != [] {
      RemoveCount(ts[1..], id);
      assert ts == [ts[0]] + ts[1..];
      RemoveKeepsOrder([ts[0]], ts[1..], id);
      assert Filter([ts[0]], x => x != id) == if ts[0] != id then [ts[0]] else [];
    }
  }

  // ---------------------------------------------------------------- documents

  /** What an instance method reports: saved, rejected by validation, or a TypeError on a missing list. */
  datatype MethodOutcome = Saved | Invalid | MissingTaskList

  /**
   * A Mongoose project document in memory. Its methods edit the fields and
   * then call `Save`; the caller writes `Snapshot()` back to the store.
   */
  class ProjectDocument {
    const id: ProjectId
    var name: string
    var description: string
    var tasks: Option<seq<TaskId>>
    var createdAt: Time
    var updatedAt: Time

    function Snapshot(): (p: ProjectRecord)
      reads this
      ensures p.id == id && p.tasks == tasks
    {
      ProjectRecord(id, name, description, tasks, createdAt, updatedAt)
    }

    /** `new Project({...})` with the creation timestamps. */
    constructor New(id: ProjectId, name: string, description: string, tasks: seq<TaskId>, now: Time)
      ensures Snapshot() == ProjectRecord(id, name, description, Some(tasks), now, now)
    {
      this.id := id;
      this.name := name;
      this.description := description;
      this.tasks := Some(tasks);
      createdAt := now;
      updatedAt := now;
    }

    /** `findById`: a document hydrated from a stored record. */
    constructor Load(p: ProjectRecord)
      ensures Snapshot() == p
    {
      id := p.id;
      name := p.name;
      description := p.description;
      tasks := p.tasks;
      createdAt := p.createdAt;
      updatedAt := p.updatedAt;
    }

    /** `save()`: validation, then the pre-save hook sets updatedAt to now. */
    method Save(now: Time) returns (ok: bool)
      modifies this
      ensures ok == Validates(old(Snapshot()))
      ensures ok ==> Snapshot() == old(Snapshot()).(updatedAt := now)
      ensures !ok ==> Snapshot() == old(Snapshot())
    {
      if !Validates(Snapshot()) {
        return false;
      }
      updatedAt := now;
      ok := true;
    }

    /** addTask: push the identifier when it is not there yet, then save. */
    method AddTask(taskId: TaskId, now: Time) returns (outcome: MethodOutcome)
      modifies this
      ensures old(tasks).None? ==> outcome == MissingTaskList && Snapshot() == old(Snapshot())
      ensures old(tasks).Some? ==> tasks == Some(WithTask(old(tasks).value, taskId))
      ensures old(tasks).Some? ==> (outcome == Saved <==> Validates(old(Snapshot())))
      ensures old(tasks).Some? && outcome == Saved ==> updatedAt == now
      ensures old(tasks).Some? ==> outcome != MissingTaskList
      ensures name == old(name) && description == old(description) && createdAt == old(createdAt)
      ensures outcome != Saved ==> updatedAt == old(updatedAt)
    {
      if tasks.None? {
        return MissingTaskList;
      }
      if taskId !in tasks.value {
        tasks := Some(tasks.value + [taskId]);
      }
      var ok := Save(now);
      outcome := if ok then Saved else Invalid;
    }

    /** removeTask: keep every identifier but `taskId`, then save. */
    method RemoveTask(taskId: TaskId, now: Time) returns (outcome: MethodOutcome)
      modifies this
      ensures old(tasks).None? ==> outcome == MissingTaskList && Snapshot() == old(Snapshot())
      ensures old(tasks).Some? ==> tasks == Some(WithoutTask(old(tasks).value, taskId))
      ensures old(tasks).Some? ==> (outcome == Saved <==> Validates(old(Snapshot())))
      ensures old(tasks).Some? && outcome == Saved ==> updatedAt == now
      ensures old(tasks).Some? ==> outcome != MissingTaskList
      ensures name == old(name) && description == old(description) && createdAt == old(createdAt)
      ensures outcome != Saved ==> updatedAt == old(updatedAt)
    {
      if tasks.None? {
        return MissingTaskList;
      }
      tasks := Some(WithoutTask(tasks.value, taskId));
      var ok := Save(now);
      outcome := if ok then Saved else Invalid;
    }

    /** clearTasks: replace the list by the empty list, then save. */
    method ClearTasks(now: Time) returns (outcome: MethodOutcome)
      modifies this
      ensures tasks == Some([])
      ensures outcome == Saved <==> Validates(old(Snapshot()))
      ensures outcome != MissingTaskList
      ensures outcome == Saved ==> updatedAt == now
      ensures outcome != Saved ==> updatedAt == old(updatedAt)
      ensures name == old(name) && description == old(description) && createdAt == old(createdAt)
    {
      tasks := Some([]);
      var ok := Save(now);
      outcome := if ok then Saved else Invalid;
    }
  }

  // ---------------------------------------------------------------- searchProjects

  /** searchProjects' query: no constraint for an empty query, else name OR description contains it. */
  predicate ProjectMatches(query: string, p: ProjectRecord)
  {
    query == "" || ContainsIgnoringCase(p.name, query) || ContainsIgnoringCase(p.description, query)
  }

  /** searchProjects: the matching projects, newest first. */
  function SearchProjects(s: seq<ProjectRecord>, query: string): (r: seq<ProjectRecord>)
    ensures SortedDesc(r, CreatedAt)
    ensures multiset(r) == multiset(Filter(s, p => ProjectMatches(query, p)))
    ensures forall p :: p in r <==> p in s && ProjectMatches(query, p)
  {
    var matching := Filter(s, p => ProjectMatches(query, p));
    var r := SortDesc(matching, CreatedAt);
    SortDescSameElements(matching, CreatedAt);
    forall p ensures p in r <==> p in s && ProjectMatches(query, p) {
      FilterMembers(s, p => ProjectMatches(query, p), p);
    }
    r
  }

  /** With no query every project is returned, newest first. */
  lemma {:induction false} SearchWithoutQueryReturnsAll(s: seq<ProjectRecord>)
    ensures multiset(SearchProjects(s, "")) == multiset(s)
  {
    FilterKeepsAll(s, p => ProjectMatches("", p));
  }
}
