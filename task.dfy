/**
 * The Task entity (models/Task.js): the schema's validators and defaults, the
 * virtual fields, the pre-save hook, the instance methods toggleComplete and
 * updatePriority, and the static queries getStats, getRecentTasks and
 * searchTasks evaluated over an in-memory collection.
 */
module TaskModel {
  import opened Text
  import opened Collections

  /** Milliseconds since the epoch. "Now" is always passed in. */
  type Time = int
  type TaskId = nat

  const MaxTitleLength := 100
  const MaxDescriptionLength := 500
  const Priorities: set<string> := {"low", "medium", "high"}
  const Categories: set<string> := {"work", "personal", "study", "health", "other"}
  const DefaultDescription := ""
  const DefaultPriority := "medium"
  const DefaultCategory := "work"
  /** getRecentTasks' default `limit`. */
  const DefaultRecentLimit := 5

  /** A task document as the store holds it. Enumerated fields stay strings, as in the schema. */
  datatype TaskRecord = TaskRecord(
    id: TaskId,
    title: string,
    description: string,
    priority: string,
    category: string,
    dueDate: Option<Time>,
    completed: bool,
    completedAt: Option<Time>,
    createdAt: Time,
    updatedAt: Time)

  function IdOf(t: TaskRecord): nat { t.id }
  function CreatedAt(t: TaskRecord): int { t.createdAt }
  predicate IsPending(t: TaskRecord) { !t.completed }

  // ---------------------------------------------------------------- validation

  /** `required`, `minlength: 1` and `maxlength: 100` on the (already trimmed) title. */
  predicate ValidTitle(title: string) { 1 <= |title| <= MaxTitleLength }
  predicate ValidDescription(description: string) { |description| <= MaxDescriptionLength }
  predicate ValidPriority(priority: string) { priority in Priorities }
  predicate ValidCategory(category: string) { category in Categories }

  /** The custom dueDate validator: no date, or a date strictly later than `now`. */
  predicate ValidDueDate(dueDate: Option<Time>, now: Time)
  {
    match dueDate
    case None => true
    case Some(d) => d > now
  }

  /** The validators that do not depend on the clock. */
  predicate WellFormed(t: TaskRecord)
  {
    ValidTitle(t.title) && ValidDescription(t.description)
    && ValidPriority(t.priority) && ValidCategory(t.category)
  }

  /** What `save()` validates: every path of the document, the due date against `now`. */
  predicate Validates(t: TaskRecord, now: Time)
  {
    WellFormed(t) && ValidDueDate(t.dueDate, now)
  }

  /** The task schema's rules with their constants written out. */
  lemma ValidationRules(t: TaskRecord, now: Time)
    ensures Validates(t, now) <==>
      && 1 <= |t.title| <= 100
      && |t.description| <= 500
      && t.priority in {"low", "medium", "high"}
      && t.category in {"work", "personal", "study", "health", "other"}
      && (t.dueDate.None? || t.dueDate.value > now)
  {
  }

  /** The due-date rule in the source's own words: absent, or strictly in the future. */
  lemma DueDateRule(dueDate: Option<Time>, now: Time)
    ensures ValidDueDate(dueDate, now) <==> dueDate == None || dueDate.value > now
  {
  }

  /** A task completes its bookkeeping when completedAt is set exactly while it is completed. */
  predicate CompletionConsistent(t: TaskRecord)
  {
    t.completed <==> t.completedAt.Some?
  }

  /**
   * What the pre-save hook guarantees in one direction only: a pending task has
   * no completedAt. A completed task may lack one when it was inserted without
   * going through `save()` (a bulk insert runs no save hook).
   */
  predicate PendingHasNoCompletionTime(t: TaskRecord)
  {
    t.completed || t.completedAt.None?
  }

  /** What every record in the store satisfies: it passed validation, and a pending one carries no completedAt. */
  predicate Stored(t: TaskRecord)
  {
    WellFormed(t) && PendingHasNoCompletionTime(t)
  }

  // ---------------------------------------------------------------- virtuals

  /** The isOverdue virtual. */
  function IsOverdue(t: TaskRecord, now: Time): (overdue: bool)
    ensures overdue ==> t.dueDate.Some? && !t.completed && t.dueDate.value < now
    ensures t.dueDate.Some? && !t.completed && t.dueDate.value < now ==> overdue
  {
    if t.dueDate.None? || t.completed then false else t.dueDate.value < now
  }

  /**
   * A task that passes validation at `now` is not overdue at `now`. Conversely,
   * because `save()` validates the stored due date again, a pending task whose
   * due date has passed can no longer be saved unless the due date changes.
   */
  lemma {:induction false} OverdueFailsValidation(t: TaskRecord, now: Time)
    ensures IsOverdue(t, now) ==> !Validates(t, now)
    ensures Validates(t, now) ==> !IsOverdue(t, now)
    ensures t.dueDate.Some? && t.dueDate.value <= now ==> !Validates(t, now)
  {
  }

  /** The priorityText virtual: the Portuguese label, or the raw value when there is none. */
  function PriorityText(priority: string): (text: string)
    ensures priority == "high" ==> text == "Alta"
    ensures priority == "medium" ==> text == "Média"
    ensures priority == "low" ==> text == "Baixa"
    ensures !ValidPriority(priority) ==> text == priority
  {
    if priority == "high" then "Alta"
    else if priority == "medium" then "Média"
    else if priority == "low" then "Baixa"
    else priority
  }

  /** The categoryText virtual. */
  function CategoryText(category: string): (text: string)
    ensures category == "work" ==> text == "Trabalho"
    ensures category == "personal" ==> text == "Pessoal"
    ensures category == "study" ==> text == "Estudos"
    ensures category == "health" ==> text == "Saúde"
    ensures category == "other" ==> text == "Outros"
    ensures !ValidCategory(category) ==> text == category
  {
    if category == "work" then "Trabalho"
    else if category == "personal" then "Pessoal"
    else if category == "study" then "Estudos"
    else if category == "health" then "Saúde"
    else if category == "other" then "Outros"
    else category
  }

  /** Distinct valid priorities get distinct labels, and so do distinct valid categories. */
  lemma LabelsAreDistinct(p1: string, p2: string, c1: string, c2: string)
    ensures ValidPriority(p1) && ValidPriority(p2) && p1 != p2 ==> PriorityText(p1) != PriorityText(p2)
    ensures ValidCategory(c1) && ValidCategory(c2) && c1 != c2 ==> CategoryText(c1) != CategoryText(c2)
  {
  }

  // ---------------------------------------------------------------- pre-save hook

  /**
   * The effect of the pre-save hook on a record that has passed validation.
   * `storedCompleted` is the value of `completed` when the document was loaded
   * or last saved, so `isModified('completed')` is `t.completed != storedCompleted`.
   */
  function Stamp(t: TaskRecord, storedCompleted: bool, now: Time): (s: TaskRecord)
    ensures s.updatedAt == now
    ensures s == t.(updatedAt := now, completedAt := s.completedAt)
    ensures t.completed != storedCompleted && t.completed && t.completedAt.None? ==> s.completedAt == Some(now)
    ensures t.completed && t.completedAt.Some? ==> s.completedAt == t.completedAt
    ensures t.completed != storedCompleted && !t.completed ==> s.completedAt == None
    ensures t.completed == storedCompleted ==> s.completedAt == t.completedAt
  {
    var modified := t.completed != storedCompleted;
    var completedAt :=
      if modified && t.completed && t.completedAt.None? then Some(now)
      else if modified && !t.completed then None
      else t.completedAt;
    t.(updatedAt := now, completedAt := completedAt)
  }

  /**
   * The completedAt bookkeeping is kept: if the stored document was consistent
   * (and the caller did not touch completedAt), the saved one is too.
   */
  lemma {:induction false} StampKeepsConsistency(t: TaskRecord, storedCompleted: bool, now: Time)
    requires storedCompleted <==> t.completedAt.Some?
    ensures CompletionConsistent(Stamp(t, storedCompleted, now))
    ensures !Stamp(t, storedCompleted, now).completed ==> Stamp(t, storedCompleted, now).completedAt == None
  {
  }

  /**
   * The direction of the bookkeeping that holds for every stored task: when a
   * task unmodified since loading was pending without completedAt, the saved
   * one is too, and a task saved as pending never carries a completedAt.
   */
  lemma {:induction false} StampKeepsPendingClear(t: TaskRecord, storedCompleted: bool, now: Time)
    requires !storedCompleted ==> t.completedAt.None?
    ensures PendingHasNoCompletionTime(Stamp(t, storedCompleted, now))
  {
  }

  /** Turning a pending task into a completed one records the time of the transition. */
  lemma CompletionTime(t: TaskRecord, now: Time)
    requires CompletionConsistent(t) && !t.completed
    ensures Stamp(t.(completed := true), false, now).completedAt == Some(now)
  {
  }

  /** toggleComplete's assignment, before the save. */
  function Toggled(t: TaskRecord): (u: TaskRecord)
    ensures u.completed != t.completed
    ensures u.(completed := t.completed) == t
  {
    t.(completed := !t.completed)
  }

  /**
   * Toggling twice, with both saves succeeding, restores `completed`; it
   * restores completedAt only for a task that started pending. A completed
   * task toggled twice carries the time of the second toggle, whether or not
   * it had a completedAt before.
   */
  lemma {:induction false} ToggleTwice(t: TaskRecord, now1: Time, now2: Time)
    requires PendingHasNoCompletionTime(t)
    ensures var once := Stamp(Toggled(t), t.completed, now1);
            var twice := Stamp(Toggled(once), once.completed, now2);
            && twice == t.(completedAt := twice.completedAt, updatedAt := now2)
            && (!t.completed ==> twice.completedAt == t.completedAt)
            && (t.completed ==> twice.completedAt == Some(now2))
  {
  }

  // ---------------------------------------------------------------- documents

  /**
   * A Mongoose task document in memory. Assigning to its fields changes
   * nothing in the store; `Save` validates it and runs the pre-save hook, and
   * the caller writes `Snapshot()` back.
   */
  class TaskDocument {
    const id: TaskId
    var title: string
    var description: string
    var priority: string
    var category: string
    var dueDate: Option<Time>
    var completed: bool
    var completedAt: Option<Time>
    var createdAt: Time
    var updatedAt: Time
    /** The value of `completed` when the document was loaded or last saved (`isModified` tracking). */
    var storedCompleted: bool

    function Snapshot(): (t: TaskRecord)
      reads this
      ensures t.id == id && t.completed == completed
    {
      TaskRecord(id, title, description, priority, category, dueDate, completed, completedAt, createdAt, updatedAt)
    }

    /** `new Task({...})`: the schema defaults for completed, completedAt and the timestamps. */
    constructor New(id: TaskId, title: string, description: string, priority: string,
                    category: string, dueDate: Option<Time>, now: Time)
      ensures Snapshot() == TaskRecord(id, title, description, priority, category, dueDate, false, None, now, now)
      ensures storedCompleted == false
    {
      this.id := id;
      this.title := title;
      this.description := description;
      this.priority := priority;
      this.category := category;
      this.dueDate := dueDate;
      completed := false;
      completedAt := None;
      createdAt := now;
      updatedAt := now;
      storedCompleted := false;
    }

    /** `findById`: a document hydrated from a stored record. */
    constructor Load(t: TaskRecord)
      ensures Snapshot() == t && storedCompleted == t.completed
    {
      id := t.id;
      title := t.title;
      description := t.description;
      priority := t.priority;
      category := t.category;
      dueDate := t.dueDate;
      completed := t.completed;
      completedAt := t.completedAt;
      createdAt := t.createdAt;
      updatedAt := t.updatedAt;
      storedCompleted := t.completed;
    }

    /**
     * `save()`: validation first (a failure leaves the document as it was),
     * then the pre-save hook refreshes updatedAt and keeps completedAt in step
     * with completed.
     */
    method Save(now: Time) returns (ok: bool)
      modifies this
      ensures ok == Validates(old(Snapshot()), now)
      ensures ok ==> Snapshot() == Stamp(old(Snapshot()), old(storedCompleted), now)
      ensures ok ==> storedCompleted == completed
      ensures !ok ==> Snapshot() == old(Snapshot()) && storedCompleted == old(storedCompleted)
    {
      if !Validates(Snapshot(), now) {
        return false;
      }
      updatedAt := now;
      if completed != storedCompleted && completed && completedAt.None? {
        completedAt := Some(now);
      }
      if completed != storedCompleted && !completed {
        completedAt := None;
      }
      storedCompleted := completed;
      ok := true;
    }

    /** toggleComplete: negates `completed` in memory, then saves. */
    method ToggleComplete(now: Time) returns (ok: bool)
      modifies this
      ensures ok == Validates(old(Snapshot()), now)
      ensures ok ==> Snapshot() == Stamp(Toggled(old(Snapshot())), old(storedCompleted), now)
      ensures !ok ==> Snapshot() == Toggled(old(Snapshot()))
      ensures ok ==> storedCompleted == completed
      ensures !ok ==> storedCompleted == old(storedCompleted)
    {
      completed := !completed;
      ok := Save(now);
    }

    /** updatePriority: replaces `priority` in memory, then saves. */
    method UpdatePriority(newPriority: string, now: Time) returns (ok: bool)
      modifies this
      ensures ok == Validates(old(Snapshot()).(priority := newPriority), now)
      ensures ok ==> Snapshot() == Stamp(old(Snapshot()).(priority := newPriority), old(storedCompleted), now)
      ensures ok && old(storedCompleted) == old(completed) ==>
                Snapshot() == old(Snapshot()).(priority := newPriority, updatedAt := now)
      ensures !ok ==> Snapshot() == old(Snapshot()).(priority := newPriority)
      ensures ok ==> storedCompleted == completed
      ensures !ok ==> storedCompleted == old(storedCompleted)
    {
      priority := newPriority;
      ok := Save(now);
    }
  }

  // ---------------------------------------------------------------- getStats

  datatype TaskStats = TaskStats(total: nat, completed: nat, pending: nat, completionRate: nat)

  /** `$sum: { $cond: ['$completed', 1, 0] }` */
  function CountCompleted(s: seq<TaskRecord>): (n: nat)
    ensures n <= |s|
  {
    if s == [] then 0 else (if s[0].completed then 1 else 0) + CountCompleted(s[1..])
  }

  /** `$sum: { $cond: ['$completed', 0, 1] }` */
  function CountPending(s: seq<TaskRecord>): (n: nat)
    ensures n <= |s|
  {
    if s == [] then 0 else (if s[0].completed then 0 else 1) + CountPending(s[1..])
  }

  /** Every task is counted exactly once, as completed or as pending. */
  lemma {:induction false} CountsAddUp(s: seq<TaskRecord>)
    ensures CountCompleted(s) + CountPending(s) == |s|
  {
    if s != [] {
      CountsAddUp(s[1..]);
    }
  }

  /** Cancelling a positive factor from a strict inequality. */
  lemma CancelPositive(x: int, y: int, k: int)
    requires k > 0 && x * k < y * k
    ensures x < y
  {
    assert (y - x) * k == y * k - x * k;
  }

  /**
   * `Math.round(part / whole * 100)` over exact rationals: the integer nearest
   * to 100*part/whole, halves rounded up.
   */
  function RoundedPercent(part: nat, whole: nat): (rate: nat)
    requires 0 < whole && part <= whole
    ensures rate <= 100
    ensures 2 * whole * rate <= 200 * part + whole < 2 * whole * (rate + 1)
  {
    var d := 2 * whole;
    var n := 200 * part + whole;
    var rate := n / d;
    assert rate * d <= n < (rate + 1) * d;
    assert n < 101 * d;
    CancelPositive(rate, 101, d);
    rate
  }

  /** The aggregation: all zeros for an empty collection, otherwise the counts and the rounded rate. */
  function GetStats(s: seq<TaskRecord>): (st: TaskStats)
    ensures st.total == |s|
    ensures st.completed == CountCompleted(s) && st.pending == CountPending(s)
    ensures st.completed + st.pending == st.total
    ensures st.completionRate <= 100
    ensures |s| == 0 ==> st == TaskStats(0, 0, 0, 0)
    ensures |s| > 0 ==> 2 * st.total * st.completionRate <= 200 * st.completed + st.total < 2 * st.total * (st.completionRate + 1)
  {
    CountsAddUp(s);
    if |s| == 0 then TaskStats(0, 0, 0, 0)
    else TaskStats(|s|, CountCompleted(s), CountPending(s), RoundedPercent(CountCompleted(s), |s|))
  }

  /** One of three gives 33; one of eight is exactly 12.5 and rounds up to 13. */
  lemma RateExamples()
    ensures RoundedPercent(1, 3) == 33
    ensures RoundedPercent(1, 8) == 13
  {
  }

  /** The rate is 0 when no task is completed and 100 when all are. */
  lemma {:induction false} RateExtremes(whole: nat)
    requires whole > 0
    ensures RoundedPercent(0, whole) == 0
    ensures RoundedPercent(whole, whole) == 100
  {
    var lo, hi := RoundedPercent(0, whole), RoundedPercent(whole, whole);
    assert lo * (2 * whole) < 1 * (2 * whole);
    CancelPositive(lo, 1, 2 * whole);
    assert 100 * (2 * whole) < (hi + 1) * (2 * whole);
    CancelPositive(100, hi + 1, 2 * whole);
  }

  /** Completing more tasks never lowers the rate. */
  lemma {:induction false} RateMonotone(a: nat, b: nat, whole: nat)
    requires 0 < whole && a <= b <= whole
    ensures RoundedPercent(a, whole) <= RoundedPercent(b, whole)
  {
    var ra, rb := RoundedPercent(a, whole), RoundedPercent(b, whole);
    assert 2 * whole * ra <= 200 * a + whole <= 200 * b + whole < 2 * whole * (rb + 1);
    assert ra * (2 * whole) < (rb + 1) * (2 * whole);
    CancelPositive(ra, rb + 1, 2 * whole);
  }

  // ---------------------------------------------------------------- getRecentTasks

  /** `sort({ createdAt: -1 })` */
  function NewestFirst(s: seq<TaskRecord>): (r: seq<TaskRecord>)
    ensures SortedDesc(r, CreatedAt)
    ensures multiset(r) == multiset(s)
    ensures |r| == |s|
    ensures forall x :: x in r <==> x in s
  {
    SortDescSameElements(s, CreatedAt);
    SortDesc(s, CreatedAt)
  }

  /**
   * getRecentTasks: newest first, cut to `limit`. An omitted `limit` is 5, and
   * a `limit` of 0 means no limit to the store.
   */
  function RecentTasks(s: seq<TaskRecord>, limit: Option<nat>): (r: seq<TaskRecord>)
    ensures var n := if limit.Some? then limit.value else DefaultRecentLimit;
      && (n > 0 ==> |r| == if |s| < n then |s| else n)
      && (n == 0 ==> |r| == |s|)
    ensures SortedDesc(r, CreatedAt)
    ensures forall i :: 0 <= i < |r| ==> r[i] in s
    ensures multiset(r) <= multiset(s)
    ensures var n := if limit.Some? then limit.value else DefaultRecentLimit;
      (n == 0 || |s| <= n) ==> multiset(r) == multiset(s)
  {
    Take(NewestFirst(s), if limit.Some? then limit.value else DefaultRecentLimit)
  }

  /**
   * The result is the first `limit` tasks of the sorted collection, or all of
   * it when the collection is no longer than `limit` or `limit` is 0; no task
   * outside the result is newer than one inside it. With no `limit` the first
   * five are returned.
   */
  lemma RecentAreNewest(s: seq<TaskRecord>, limit: nat)
    ensures forall i, j :: 0 <= i < limit <= j < |s| ==> NewestFirst(s)[i].createdAt >= NewestFirst(s)[j].createdAt
    ensures 0 < limit < |s| ==> RecentTasks(s, Some(limit)) == NewestFirst(s)[..limit]
    ensures limit == 0 || |s| <= limit ==> RecentTasks(s, Some(limit)) == NewestFirst(s)
    ensures |s| > DefaultRecentLimit ==> RecentTasks(s, None) == NewestFirst(s)[..5]
    ensures |s| <= DefaultRecentLimit ==> RecentTasks(s, None) == NewestFirst(s)
  {
    SortDescSameElements(s, CreatedAt);
  }

  // ---------------------------------------------------------------- searchTasks

  /** The query document searchTasks assembles; each field is a constraint when present. */
  datatype TaskQuery = TaskQuery(
    text: Option<string>,
    completed: Option<bool>,
    priority: Option<string>,
    category: Option<string>)

  /**
   * searchTasks' query assembly. An empty string is falsy in the source and
   * imposes no constraint; a status other than "completed" or "pending" is ignored.
   */
  function SearchQuery(text: string, status: string, priority: string, category: string): (q: TaskQuery)
    ensures q.text.Some? <==> text != ""
    ensures q.completed == (if status == "completed" then Some(true) else if status == "pending" then Some(false) else None)
    ensures q.priority.Some? <==> priority != ""
    ensures q.category.Some? <==> category != ""
  {
    TaskQuery(
      if text != "" then Some(text) else None,
      if status == "completed" then Some(true) else if status == "pending" then Some(false) else None,
      if priority != "" then Some(priority) else None,
      if category != "" then Some(category) else None)
  }

  /** How the store evaluates the query on one document. */
  predicate Matches(q: TaskQuery, t: TaskRecord)
  {
    && (q.text.None? || ContainsIgnoringCase(t.title, q.text.value) || ContainsIgnoringCase(t.description, q.text.value))
    && (q.completed.None? || t.completed == q.completed.value)
    && (q.priority.None? || t.priority == q.priority.value)
    && (q.category.None? || t.category == q.category.value)
  }

  /** `find(query)` */
  function MatchingTasks(s: seq<TaskRecord>, q: TaskQuery): (r: seq<TaskRecord>)
    ensures forall i :: 0 <= i < |r| ==> Matches(q, r[i])
    ensures forall t :: t in r <==> t in s && Matches(q, t)
  {
    var r := Filter(s, t => Matches(q, t));
    assert forall t :: t in r <==> t in s && Matches(q, t) by {
      forall t ensures t in r <==> t in s && Matches(q, t) {
        FilterMembers(s, t => Matches(q, t), t);
      }
    }
    r
  }

  /** searchTasks: the matching tasks, newest first. */
  function SearchTasks(s: seq<TaskRecord>, text: string, status: string, priority: string, category: string): (r: seq<TaskRecord>)
    ensures SortedDesc(r, CreatedAt)
    ensures multiset(r) == multiset(MatchingTasks(s, SearchQuery(text, status, priority, category)))
  {
    NewestFirst(MatchingTasks(s, SearchQuery(text, status, priority, category)))
  }

  /** The parameter-by-parameter meaning of a search, with every part ANDed. */
  lemma SearchTasksMembers(s: seq<TaskRecord>, text: string, status: string, priority: string, category: string, t: TaskRecord)
    ensures t in SearchTasks(s, text, status, priority, category) <==>
      && t in s
      && (text == "" || ContainsIgnoringCase(t.title, text) || ContainsIgnoringCase(t.description, text))
      && (status == "completed" ==> t.completed)
      && (status == "pending" ==> !t.completed)
      && (priority == "" || t.priority == priority)
      && (category == "" || t.category == category)
  {
    var m := MatchingTasks(s, SearchQuery(text, status, priority, category));
    assert t in SearchTasks(s, text, status, priority, category) <==> t in multiset(m);
  }

  /** With no parameters every task is returned, newest first. */
  lemma SearchWithoutParametersReturnsAll(s: seq<TaskRecord>)
    ensures multiset(SearchTasks(s, "", "", "", "")) == multiset(s)
  {
    var q := SearchQuery("", "", "", "");
    FilterKeepsAll(s, t => Matches(q, t));
  }

  /** A status value other than "completed" or "pending" is no constraint at all. */
  lemma UnknownStatusIgnored(text: string, status: string, priority: string, category: string)
    requires status != "completed" && status != "pending"
    ensures SearchQuery(text, status, priority, category) == SearchQuery(text, "", priority, category)
  {
  }

  /** A search for "foo" among completed tasks finds "foobar" when it is completed, and not otherwise. */
  lemma SearchExample(t: TaskRecord)
    requires t.title == "foobar" && t.description == ""
    ensures Matches(SearchQuery("foo", "completed", "", ""), t) <==> t.completed
    ensures !Matches(SearchQuery("foo", "completed", "", ""), t.(title := "bar"))
  {
    assert OccursAt("foo", "foobar", 0);
    assert Lower("foo") == "foo";
    assert Lower("foobar") == "foobar";
    assert Lower("bar") == "bar";
    assert Lower("") == "";
    assert "bar"[0] != "foo"[0];
    assert !OccursAt("foo", "bar", 0);
    assert forall i :: OccursAt("foo", "bar", i) ==> i == 0;
    assert !Contains("bar", "foo");
  }
}
