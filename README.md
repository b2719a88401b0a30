# Task and project API — a Dafny model

This project models the logic of a small Express/Mongoose REST API for tasks
("tarefas") and projects ("projetos"), over an in-memory collection.

- **Task entity** (`TaskModel`, models/Task.js):
  - the schema's validators and defaults;
  - the `isOverdue`, `priorityText` and `categoryText` virtuals;
  - the pre-save hook that refreshes `updatedAt` and keeps `completedAt` in step with `completed`;
  - the instance methods `toggleComplete` and `updatePriority`;
  - the statics `getStats`, `getRecentTasks` and `searchTasks`.
- **Project entity** (`ProjectModel`, models/Project.js):
  - name and description validation and the pre-save hook;
  - the `taskCount` virtual;
  - `addTask`, `removeTask` and `clearTasks` on the `tasks` reference list;
  - `searchProjects`.
- **Request handlers** (`Api` and `Pagination`, routes/api.js): the `/tarefas`
  list, create, update, delete, toggle and delete-completed handlers, and POST,
  PUT and DELETE `/projetos`.

How the pieces fit:

- A Mongoose document in memory is a class (`TaskDocument`, `ProjectDocument`).
  A handler loads one from the store, assigns its fields, and calls `Save(now)`.
  `Save` validates the document, runs the pre-save hook, and returns whether it
  succeeded. The handler then writes `Snapshot()` back.
- The store is a class (`TaskStore`, `ProjectStore`) holding a sequence of
  records and a counter for new identifiers. Every handler keeps its invariant:
  - every record passes the clock-independent validators (title, description, priority and
    category; the due-date validator depends on the time of the save and is checked there);
  - no two records share an identifier;
  - a pending stored task has no `completedAt`. The hook guarantees only this direction,
    because a bulk insert (scripts/seedDatabase.js:113) runs no save hook and can store a
    completed task without one. Tasks created through the API have `completedAt` set
    exactly while they are completed (`Api.NewTaskFields`, `TaskModel.StampKeepsConsistency`).
- Each handler's postcondition gives its answer and the store's new contents in
  terms of specification functions. The properties are proved as lemmas about
  those functions:
  - partial updates touch only the given fields;
  - the search filters AND together;
  - reading every page gives back all the matches, for one fixed order of tasks with equal
    createdAt;
  - the completion rate stays in [0, 100] and is monotone;
  - removing a task identifier keeps the order of the rest.
- "Now" is always a parameter. `String.prototype.trim` is modelled with the full
  JavaScript white-space set. A `$regex` filter with option `i` is a literal,
  ASCII case-insensitive substring search.

Mongoose validates every path of a document on `save()`, including the paths it
loaded. So a task whose due date has passed, pending or completed, fails the
due-date validator on any later save. It cannot be toggled or updated unless the
request also changes its due date. `TaskModel.OverdueFailsValidation` states this, and the
handlers' contracts show it: success is exactly `Validates(..., now)` of the
document as assigned.

## Model

| member | source | states |
|---|---|---|
| Text.Trim | models/Task.js:22 | the trimmed string is no longer than the input and neither starts nor ends with white space |
| Text.TrimRemovesOnlyEdgeSpace | models/Task.js:22 | the trimmed string is a contiguous slice of the input, and what lies before and after it is all white space |
| Text.TrimEmptyIff | routes/api.js:252 | a string trims to the empty string exactly when it is all white space, which is when the blank-title check fires |
| Text.TrimIdempotent | routes/api.js:262 | trimming twice equals trimming once, so the schema's `trim` setter after the handler's `.trim()` changes nothing |
| Text.Contains | models/Task.js:213 | the recursive search answers true exactly when the pattern occurs at some position of the string |
| Text.ContainsIgnoringCase | models/Task.js:213 | `{ $regex: q, $options: 'i' }` as a literal substring test on the ASCII lower-cased strings; its meaning is stated by `Text.Contains` |
| Text.EmptyPatternMatches | models/Task.js:211-216 | an empty pattern would match every string. The sources never send one, since `if (query)` skips the filter, and the model's empty-text query gives the same result |
| Text.ContainsItselfIgnoringCase | models/Task.js:213 | with option `i`, a string matches itself written in another case |
| Collections.Filter | models/Task.js:235 | `find(query)`, and the `filter` of removeTask (models/Project.js:92): keeps, in order, only elements that satisfy the query, never more copies than the input |
| Collections.FilterMembers | models/Task.js:235 | `find(query)` keeps an element exactly when it is in the collection and satisfies the query |
| Collections.FilterAppend | models/Project.js:92 | filtering distributes over concatenation, so it keeps the relative order of what it keeps |
| Collections.FilterKeepsAll | models/Task.js:235 | a query every element satisfies returns the whole collection unchanged |
| Collections.InsertDesc | models/Task.js:236 | inserting into a list sorted by descending key keeps it sorted and adds exactly one element |
| Collections.SortDesc | models/Task.js:236 | `sort({ createdAt: -1 })` returns the same multiset of documents in descending key order |
| Collections.SortDescSameElements | models/Task.js:236 | sorting keeps the length and exactly the same members |
| Collections.IndexOf | routes/api.js:304-305 | `findById` finds nothing exactly when no document has the identifier; otherwise it returns the first position holding it |
| Collections.RemoveAtUnique | routes/api.js:363 | with unique identifiers, removing one position removes exactly the document with that identifier and keeps the rest unique |
| Collections.StoreAppend | routes/api.js:269 | saving a valid new document under a fresh identifier keeps the store invariant |
| Collections.StoreReplace | routes/api.js:321 | saving a valid document over the one with the same identifier keeps the store invariant |
| Collections.StoreRemove | routes/api.js:363 | `findByIdAndDelete` keeps the invariant and removes exactly the documents with that identifier |
| Collections.StoreFilter | routes/api.js:751 | `deleteMany` keeps the store invariant |
| TaskModel.WellFormed | models/Task.js:19-47 | the clock-independent validators: title length 1 to 100, description at most 500, priority and category in their enums; stated with constants by `TaskModel.ValidationRules` |
| TaskModel.Validates | models/Task.js:19-59 | what `save()` checks: the well-formedness rules and the due-date validator at now |
| TaskModel.ValidationRules | models/Task.js:19-59 | a task validates exactly when its title has 1 to 100 characters, its description at most 500, its priority is low, medium or high, its category one of the five, and its due date is absent or after now |
| TaskModel.DueDateRule | models/Task.js:51-56 | a due date is valid exactly when it is absent or strictly later than now |
| TaskModel.IsOverdue | models/Task.js:103-106 | overdue exactly when there is a due date, the task is pending and the due date is before now |
| TaskModel.OverdueFailsValidation | models/Task.js:51-56 | an overdue task fails validation at that moment, and a task that validates is not overdue; any task, completed or not, whose due date is not after now fails validation |
| TaskModel.PriorityText | models/Task.js:108-115 | high gives "Alta", medium "Média", low "Baixa"; any other value is returned as it is |
| TaskModel.CategoryText | models/Task.js:117-126 | work gives "Trabalho", personal "Pessoal", study "Estudos", health "Saúde", other "Outros"; any other value is returned as it is |
| TaskModel.LabelsAreDistinct | models/Task.js:108-126 | distinct valid priorities, and distinct valid categories, get distinct labels |
| TaskModel.Stamp | models/Task.js:134-149 | the hook sets updatedAt to now and changes nothing else except completedAt. completedAt becomes now when `completed` turns true with no completedAt, becomes null when `completed` turns false, and is otherwise kept |
| TaskModel.StampKeepsConsistency | models/Task.js:139-146 | after the hook, completedAt is set exactly while the task is completed; a pending task has no completedAt |
| TaskModel.StampKeepsPendingClear | models/Task.js:143-146 | a task unmodified since loading that was pending without completedAt stays so, and a task saved as pending never carries a completedAt |
| TaskModel.CompletionTime | models/Task.js:139-141 | completing a pending task records the save time as completedAt |
| TaskModel.Toggled | models/Task.js:158 | toggling negates `completed` and changes no other field |
| TaskModel.ToggleTwice | models/Task.js:157-160 | two successful toggles give back the original record except for updatedAt (the second save's time) and completedAt. completedAt comes back for a task that started pending and is the second save's time otherwise, including for a completed task stored without one |
| TaskModel.TaskDocument.New | models/Task.js:60-75 | a new document holds the given fields, `completed` false, no completedAt, and both timestamps at now |
| TaskModel.TaskDocument.Load | routes/api.js:304 | a loaded document holds the stored record, which counts as unmodified |
| TaskModel.TaskDocument.Save | models/Task.js:134-149 | succeeds exactly when the document validates at now. On success the document becomes the hook's result; on failure it is left as it was |
| TaskModel.TaskDocument.ToggleComplete | models/Task.js:157-160 | negates `completed` and saves; the document after a successful save is the stamped toggle and counts as unmodified; a failed save leaves the toggle in memory and the change tracking as it was |
| TaskModel.TaskDocument.UpdatePriority | models/Task.js:162-165 | replaces the priority and saves. On an otherwise unmodified document only priority and updatedAt change; a successful save leaves the document unmodified, a failed one leaves the change tracking as it was |
| TaskModel.CountCompleted | models/Task.js:179 | the completed count is at most the collection size; `Api.PendingTasksCount` ties it to the tasks delete-completed removes |
| TaskModel.CountPending | models/Task.js:180 | the pending count is at most the collection size; `Api.PendingTasksCount` ties it to the pending filter |
| TaskModel.CountsAddUp | models/Task.js:176-181 | completed + pending == total |
| TaskModel.RoundedPercent | models/Task.js:195 | the rate is the integer nearest to 100*completed/total, with halves rounded up, and lies in [0, 100] |
| TaskModel.GetStats | models/Task.js:173-198 | the total is the size; the counts add up; the rate is the rounded percentage; an empty collection gives all zeros |
| TaskModel.RateExamples | models/Task.js:195 | 1 of 3 gives 33, and 1 of 8 (exactly 12.5) rounds up to 13 |
| TaskModel.RateExtremes | models/Task.js:195 | no completed task gives 0 and all completed gives 100 |
| TaskModel.RateMonotone | models/Task.js:195 | completing more tasks never lowers the rate |
| TaskModel.NewestFirst | models/Task.js:202 | the result is sorted by createdAt descending and is a permutation of the input |
| Collections.Take | models/Task.js:203 | `.limit(n)`: the first n elements, or all of them when n is 0 or the sequence is no longer than n; never more copies than the input |
| TaskModel.RecentTasks | models/Task.js:200-205 | at most `limit` tasks (5 when omitted, no limit for 0), newest first, no task more often than in the collection, and the whole collection when it is no longer than the limit or the limit is 0 |
| TaskModel.RecentAreNewest | models/Task.js:200-205 | the recent tasks are the first `limit` of the sorted collection (the first 5 when omitted), or all of it when it is no longer than the limit or the limit is 0; no task left out is newer than one returned |
| TaskModel.SearchQuery | models/Task.js:208-233 | empty text, priority and category add no constraint; "completed" and "pending" constrain `completed`; any other status adds nothing |
| TaskModel.Matches | models/Task.js:211-233 | the query as the store evaluates it on one task; spelled out parameter by parameter by `TaskModel.SearchTasksMembers` |
| TaskModel.MatchingTasks | models/Task.js:235 | exactly the tasks of the collection that match the query |
| TaskModel.SearchTasks | models/Task.js:207-238 | the matching tasks, each once, sorted by createdAt descending |
| TaskModel.SearchTasksMembers | models/Task.js:211-233 | a task is found exactly when it is in the collection and every given parameter holds: the text in title OR description, the status, the priority and the category |
| TaskModel.SearchWithoutParametersReturnsAll | models/Task.js:207-238 | with no parameters, every task is returned |
| TaskModel.UnknownStatusIgnored | models/Task.js:219-225 | a status other than "completed" or "pending" builds the same query as no status |
| TaskModel.SearchExample | models/Task.js:211-225 | searching "foo" among completed tasks finds "foobar" only when it is completed, and never finds "bar" |
| ProjectModel.Validates | models/Project.js:19-31 | what `save()` checks: name length 1 to 100 and description at most 1000 |
| ProjectModel.ValidationRules | models/Project.js:19-31 | a project validates exactly when its name has 1 to 100 characters and its description at most 1000 |
| ProjectModel.TaskCount | models/Project.js:75-77 | the length of `tasks`, or 0 when `tasks` is null |
| ProjectModel.TaskCountAfterEdits | models/Project.js:75-99 | adding grows taskCount by one exactly when the identifier is new; removing never grows it, leaves it for an absent identifier and shrinks it for a present one; clearing brings it to 0 |
| ProjectModel.RemoveCount | models/Project.js:92 | filtering an identifier out never lengthens the list and shortens it when the identifier is there |
| ProjectModel.WithTask | models/Project.js:85-87 | the identifier is in the result; an absent one is appended at the end and a present one changes nothing |
| ProjectModel.WithoutTask | models/Project.js:92 | the identifier is gone, and every other identifier is kept |
| ProjectModel.AddTaskProperties | models/Project.js:84-89 | adding is idempotent, keeps the earlier elements, grows the list by at most one, and never introduces a duplicate |
| ProjectModel.RemoveAbsentIsNoOp | models/Project.js:91-94 | removing an identifier that is not there leaves the list unchanged |
| ProjectModel.RemoveKeepsOrder | models/Project.js:92 | removal distributes over concatenation, so the others keep their relative order |
| ProjectModel.RemoveUndoesAdd | models/Project.js:84-94 | removing an identifier that was just added restores the list |
| ProjectModel.ProjectDocument.New | models/Project.js:26-44 | a new document holds the given fields and both timestamps at now |
| ProjectModel.ProjectDocument.Load | routes/api.js:542 | a loaded document holds the stored record |
| ProjectModel.ProjectDocument.Save | models/Project.js:65-68 | succeeds exactly when name and description validate, and then sets only updatedAt, to now |
| ProjectModel.ProjectDocument.AddTask | models/Project.js:84-89 | a null list fails with nothing changed; otherwise the list becomes the add-once update and is saved |
| ProjectModel.ProjectDocument.RemoveTask | models/Project.js:91-94 | a null list fails with nothing changed; otherwise the list loses every copy of the identifier and is saved |
| ProjectModel.ProjectDocument.ClearTasks | models/Project.js:96-99 | the list becomes empty and the document is saved |
| ProjectModel.ProjectMatches | models/Project.js:118-123 | no constraint for an empty query, otherwise the name OR the description contains it, ignoring case |
| ProjectModel.SearchProjects | models/Project.js:115-128 | the projects whose name OR description contains the query, ignoring case (all of them for an empty query), each exactly as often as in the collection, newest first |
| ProjectModel.SearchWithoutQueryReturnsAll | models/Project.js:118-125 | with no query, every project is returned |
| Pagination.Skip | routes/api.js:208 | skip is (page - 1) * limit, and 0 on page 1 |
| Pagination.PageCount | routes/api.js:223 | the fewest pages of `limit` items that hold `total` items (`Math.ceil`); 0 exactly when total is 0 |
| Pagination.PageOf | routes/api.js:210-213 | the window [skip, skip + limit) of the sorted matches: at most `limit` items, empty when skip reaches the end, each item at its offset |
| Pagination.PageMembers | routes/api.js:210-213 | every task on a page is one of the sorted matches |
| Pagination.PageNonEmptyIff | routes/api.js:208-223 | a page holds something exactly when its number is at most the page count |
| Pagination.FirstPagesArePrefix | routes/api.js:208-213 | pages 1 to n, read in order, are the first n * limit matches |
| Pagination.PagesCoverAll | routes/api.js:208-223 | reading pages 1 to `pages` gives back every match, each exactly once, in order |
| Pagination.PaginationExample | routes/api.js:208-223 | 25 matches at 10 per page: 3 pages, and page 3 skips 20 and holds the last 5 |
| Api.OrDefault | routes/api.js:264-265 | `value \|\| fallback`: the value when it is non-empty, otherwise the fallback |
| Api.NewTask | routes/api.js:261-267 | the record `new Task({...})` builds from the request; its fields are stated by `Api.NewTaskFields` |
| Api.NewTaskFields | routes/api.js:261-267 | the created task has the trimmed title, the trimmed description or `''`, the given priority or medium, the given category or work, the given due date, pending with no completedAt, and both timestamps at now |
| Api.NewTaskValidIff | routes/api.js:261-269 | creation validates exactly when the trimmed title, the trimmed description, the defaulted priority and category, and the due date are each valid |
| Api.Patched | routes/api.js:314-319 | the field assignments never touch the identifier, the timestamps or completedAt |
| Api.UpdatedTask | routes/api.js:314-321 | the assignments followed by the pre-save hook; what it keeps and writes is stated by `Api.UpdateTouchesOnlyGivenFields` |
| Api.UpdateTouchesOnlyGivenFields | routes/api.js:314-321 | a field absent from the body keeps its value; a given title or description is stored trimmed; a given priority, category, due date (a falsy one as null) or completed is stored as given; updatedAt becomes now; a pending result has no completedAt, and a consistent task stays consistent |
| Api.PriorityOnlyUpdate | routes/api.js:316 | a body with only a priority changes only priority and updatedAt |
| Api.PendingTasks | routes/api.js:751 | `deleteMany({ completed: true })` keeps exactly the pending tasks |
| Api.PendingTasksCount | routes/api.js:751-756 | the number removed is the number of completed tasks, and the number kept is the number of pending ones |
| Api.NewProjectValidIff | routes/api.js:509-515 | creation validates exactly when the trimmed name and trimmed description do |
| Api.TaskStore.BuildListQuery | routes/api.js:188-205 | the query built one parameter at a time equals the search query of the same parameters |
| Api.TaskStore.List | routes/api.js:174-225 | page defaults to 1 and limit to 10; data is the page's window of the newest-first matches. total counts all matches, pages is ceil(total / limit), and every returned task is a stored match |
| Api.TaskStore.Create | routes/api.js:243-286 | a blank title gives 400 and a failed validation gives an error, both with nothing changed. Otherwise exactly one task, the one built from the request, is appended; the invariant is kept |
| Api.TaskStore.AssignFields | routes/api.js:314-319 | the loaded document becomes the patched record, and its change tracking is untouched |
| Api.TaskStore.Update | routes/api.js:294-338 | an unknown id gives 404 and a failed validation gives an error, both with nothing changed. Otherwise only that task is replaced by its patched and stamped version |
| Api.TaskStore.Delete | routes/api.js:346-379 | an unknown id gives 404 and changes nothing; otherwise exactly the task with that id is removed |
| Api.TaskStore.Toggle | routes/api.js:638-671 | an unknown id gives 404 and a failed validation gives an error, both with nothing changed. Otherwise only that task is replaced by its toggled and stamped version |
| Api.TaskStore.DeleteCompleted | routes/api.js:745-768 | the store keeps exactly its pending tasks, in order, and deletedCount is the number of completed tasks (0 is a success) |
| Api.NewProject | routes/api.js:509-513 | the created project has the trimmed name, the trimmed description or `''`, the given list or `[]`, and both timestamps at now |
| Api.PatchedProject | routes/api.js:551-553 | the field assignments never touch the identifier or the timestamps |
| Api.UpdatedProject | routes/api.js:551-555 | only the fields present in the body are overwritten (name and description trimmed), and updatedAt becomes now |
| Api.ProjectStore.Create | routes/api.js:493-532 | a blank name gives 400 and a failed validation gives an error, both with nothing changed. Otherwise exactly the project built from the request is appended |
| Api.ProjectStore.AssignFields | routes/api.js:551-553 | the loaded document becomes the patched record |
| Api.ProjectStore.Update | routes/api.js:535-572 | an unknown id gives 404 and a failed validation gives an error, both with nothing changed. Otherwise only that project is replaced by its updated version |
| Api.ProjectStore.Delete | routes/api.js:575-606 | an unknown id gives 404 and changes nothing; otherwise exactly the project with that id is removed, and no task is touched |

## Left out

- The HTTP layer is left out: routing, status codes, JSON bodies, logging and the catch blocks. A handler's answer is a `Response` value, and any save error is `ValidationFailed`.
- The clock is a `now` parameter. ObjectId generation is a counter in the store. `new Date()` in the validator and in the hook read the same `now`.
- Route dispatch order is not modelled. GET `/tarefas/stats` and `/tarefas/search` (routes/api.js:679, 713) are registered after GET `/tarefas/:id` (routes/api.js:387). DELETE `/tarefas/completed` (routes/api.js:745) is registered after DELETE `/tarefas/:id` (routes/api.js:346). GET `/projetos/stats` (routes/api.js:609) is registered after `/projetos/:id` (routes/api.js:461). Express therefore hands each of these to the parameterised route. The operations behind them are modelled as they would behave if reached.
- `Project.getStats`, called at routes/api.js:613, does not exist in models/Project.js, so there is nothing to model.
- The read-only handlers change nothing and are not modelled as store methods. GET `/tarefas/:id` (routes/api.js:387-417) is a lookup by identifier (`Collections.IndexOf`). GET `/projetos/:id` is the same lookup followed by `populate`. GET `/projetos` (routes/api.js:426-458) filters with the same `$or` test as `ProjectModel.ProjectMatches`, sorts newest first and then populates. `getProjectsWithTasks` populates every project. `populate` and `select` projections are left out.
- The demo and diagnostic routes (routes/api.js:17-166) and scripts/seedDatabase.js are I/O only. The seed script's bulk insert skips the save hook, which is why the task store's invariant only promises that a pending task has no completedAt.
- The unused `filters` object at routes/api.js:182-185 is dead code.
- Text.ContainsIgnoringCase: a `$regex` pattern is read as a literal string. Regular-expression metacharacters and Unicode case folding are not modelled; only ASCII letters are folded.
- Text.Trim: strings are sequences of code points, so `maxlength` counts code points rather than UTF-16 units.
- TaskModel.RoundedPercent: the rate is computed over exact rationals, so floating-point error in `(completed / total) * 100` is not modelled. With IEEE doubles 23 of 40 gives 57.49999999999999, which rounds to 57 where the model gives 58, and 57 of 200 gives 28 where the model gives 29.
- Collections.SortDesc: ties in createdAt keep the collection's order. The store promises no particular order for them.
- Pagination.PagesCoverAll: it holds for one fixed order of the matches. Each page is a separate `find().sort().skip().limit()` query (routes/api.js:210-213), and the store may order tasks with the same createdAt differently on each query. Such ties happen when tasks are created in the same millisecond, as in a bulk insert. Reading every page can then repeat some tasks and miss others.
- Api.TaskStore.List: requires a given `page` and `limit` to be at least 1. An omitted one takes its default (1 and 10). The handler passes unchecked `parseInt` values, and NaN, zero or negative values are not modelled.
- Request fields are modelled with their intended types. A non-string title, a cast error in `findById` or a malformed date are not modelled. Values JavaScript treats as falsy are written as `""` or `None`.
- Concurrent requests and last-write-wins between them are not modelled; each handler runs alone.
- The timestamps option's own setting of createdAt and updatedAt coincides with the hook's, so only the hook is modelled.
- A priority or category that names an `Object.prototype` property (such as `"constructor"`) makes `priorities[...]` return a function; the validator rejects such values before they are stored, so this case is not modelled.
