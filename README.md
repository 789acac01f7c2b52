# Task manager: repository, collection endpoint and task list, in Dafny

A model of the core of a single-user task tracker written in TypeScript
(Next.js). Tasks are kept in one JSON data file. The repository
(`lib/tasks.ts`) loads the whole collection, changes it in memory and writes
all of it back. The collection endpoint (`app/api/tasks/route.ts`) validates
a POST and maps outcomes to status codes. The home page (`app/page.tsx`)
filters the list by status, sorts it by priority, due date or creation time,
and counts the tasks of each status.

Modules, one per source file, plus two helpers:

- `Wrappers` (`wrappers.dfy`): `Option` for optional fields and "not found",
  and `Result` for operations that may fail.
- `JsArray` (`js_array.dfy`): the array methods `filter`, `findIndex` and
  `find` that the code calls, each with what it promises.
- `TaskTypes` (`task_types.dfy`): the status and priority enumerations, the
  `Task` record and the create and update inputs (`types/task.ts`).
- `Tasks` (`tasks.dfy`): the repository (`lib/tasks.ts`). The data file is
  the field `document` of the class `TaskRepository`. It holds either a
  decoded task list or content that does not decode. `getAllTasks` reads
  undecodable content as the empty list, as the source's `catch` does.
  `CreateTask`, `UpdateTask` and `DeleteTask` are methods that load, change
  and save, like the source. Each one states the whole new content of the
  data file and its result. The pure parts are functions: the record built on
  create (`NewTask`), the shallow merge on update (`Merge`), and the lookups
  and the filter. Lemmas relate the operations to each other: lookup after
  create, lookup after update, lookup after delete, delete twice, and delete's
  length test.
- `TasksRoute` (`tasks_route.dfy`): GET and POST of `/api/tasks`. Each
  handler is a function from what it received to a status and a payload.
  `HandleGet` and `HandlePost` run the same decisions against a
  repository. They show that a rejected POST leaves the data file as it was,
  and that GET always answers 200, because loading never raises.
- `TaskListView` (`task_list_view.dfy`): the status filter, the comparator
  as written, the corrected comparator, a stable sort by the corrected
  comparator, the facts each sort order promises, and the statistics.

Inputs that the source gets from outside are parameters:

- the id, from `Date.now()` and `Math.random()`: parameter `id`;
- the creation time, from `new Date().toISOString()`: parameter `now`;
- whether the file system accepts a write: parameter `canWrite`;
- whether the request body decoded: an `Option`;
- whether the GET handler's load raised: an `Option`.

Dates (`createdAt`, `dueDate`) are integer timestamps. They stand for the
milliseconds `new Date(s).getTime()` gives for the stored ISO string.

Two facts about the code shape the model:

- An update body is spread over the stored task without any check. The
  model's `UpdateTaskDTO` has no `id` and no `createdAt`, so `Merge` keeps
  both (see "Dynamic types" under Left out).
- The code never checks ids for collisions. Nothing in the model assumes
  they are unique. Only `FindAfterCreate` needs a fresh id, and it states
  that as a precondition.

## Model

| member | source | states |
|---|---|---|
| `JsArray.Filter` | lib/tasks.ts:104 | every kept element satisfies the predicate; the result is no longer than the input and a sub-multiset of it |
| `JsArray.FilterMember` | lib/tasks.ts:104 | an element is kept exactly when it is in the input and satisfies the predicate |
| `JsArray.FilterConcat` | lib/tasks.ts:104 | filtering a concatenation concatenates the filtered parts, so kept elements stay in their relative order |
| `JsArray.FilterKeepsAll` | lib/tasks.ts:104-108 | the filtered list is as long as the input exactly when every element satisfies the predicate, and it is then the input itself |
| `JsArray.FilterIdempotent` | lib/tasks.ts:104 | filtering twice by the same predicate gives the same list as filtering once |
| `JsArray.FindIndex` | lib/tasks.ts:82 | the result is -1 exactly when no element matches; otherwise it is the index of a matching element, and no earlier element matches |
| `JsArray.Find` | lib/tasks.ts:52 | nothing is found exactly when no element matches; a found value is an element of the list and matches |
| `JsArray.FindAtFindIndex` | lib/tasks.ts:52 | `find` returns the element at the index `findIndex` reports, or nothing when that index is -1 |
| `TaskTypes.StatusName` | types/task.ts:1 | each status has its own spelling, and that spelling parses back to the same status |
| `TaskTypes.ParseStatus` | types/task.ts:1 | a string names a status exactly when it is "todo", "in-progress" or "done" |
| `TaskTypes.PriorityName` | types/task.ts:2 | each priority has its own spelling, and that spelling parses back to the same priority |
| `TaskTypes.ParsePriority` | types/task.ts:2 | a string names a priority exactly when it is "low", "medium" or "high" |
| `Tasks.NewTask` | lib/tasks.ts:61-69 | id and createdAt come from the generator and the clock; title, description and dueDate are copied; status defaults to todo and priority to medium when omitted, and otherwise take the input's values |
| `Tasks.Merge` | lib/tasks.ts:88-91 | each field present in the update replaces the stored one, each absent field keeps its value, and id and createdAt never change |
| `Tasks.MergeEmpty` | lib/tasks.ts:88-91 | an update with no fields leaves the task unchanged |
| `Tasks.MergeIdempotent` | lib/tasks.ts:88-91 | applying the same update twice gives the same task as applying it once |
| `Tasks.FindAfterAppend` | lib/tasks.ts:52 | looking up the id of an appended task finds it, unless an earlier task has the same id, and then finds that earlier task |
| `Tasks.FindAfterCreate` | lib/tasks.ts:58-75 | given an id no stored task has, looking it up after the create returns exactly the created task |
| `Tasks.FindAfterUpdate` | lib/tasks.ts:80-97 | after the first matching task is replaced by its merge, looking the id up returns the merged task, the same task the update returned |
| `Tasks.FindAfterDelete` | lib/tasks.ts:102-112 | after a delete, no task with that id is left |
| `Tasks.DeleteFindsNothing` | lib/tasks.ts:104-108 | the filtered list is as long as the stored one exactly when no task has the id, and it is then the stored list unchanged |
| `Tasks.DeleteCount` | lib/tasks.ts:104 | the tasks kept and the tasks with the id add up to the stored list's length |
| `Tasks.DeleteTwice` | lib/tasks.ts:102-112 | after one delete, deleting the same id again removes nothing |
| `Tasks.TaskRepository.GetAllTasks` | lib/tasks.ts:23-32 | returns the stored list, or the empty list when the file does not decode; changes nothing |
| `Tasks.TaskRepository.SaveTasks` | lib/tasks.ts:37-45 | when the write succeeds, the file holds exactly the given list; when it fails, the result is the save error and the file is unchanged |
| `Tasks.TaskRepository.GetTaskById` | lib/tasks.ts:50-53 | returns nothing exactly when no stored task has the id; otherwise returns a stored task with that id at a position before which no task has that id, that is, the one at `FindIndex` |
| `Tasks.TaskRepository.CreateTask` | lib/tasks.ts:58-75 | returns `NewTask` of the input, and the file holds the loaded list with that task appended at the end; a failed save returns the error and leaves the file unchanged |
| `Tasks.TaskRepository.UpdateTask` | lib/tasks.ts:80-97 | with no task having the id, returns "not found" and leaves the file untouched; otherwise replaces only the element at the first matching index with its merge, keeps every other element, the order and the length, and returns the stored merged task |
| `Tasks.TaskRepository.DeleteTask` | lib/tasks.ts:102-112 | returns false and writes nothing exactly when no task has the id; otherwise saves the list without every task with that id, the rest in their order, and returns true |
| `TasksRoute.LeadingBlanks` | app/api/tasks/route.ts:29 | counts the characters at the start of the text that trim removes: all of them are trimmable, and the character after them is not |
| `TasksRoute.TrailingBlanks` | app/api/tasks/route.ts:29 | counts the characters at the end of the text that trim removes: all of them are trimmable, and the character before them is not |
| `TasksRoute.Trim` | app/api/tasks/route.ts:29 | the trimmed text is the slice of the input after its leading blanks, with only trimmable characters before and after it; it is empty exactly when every character is trimmable; otherwise it starts and ends with a kept character |
| `TasksRoute.TitleMissing` | app/api/tasks/route.ts:29 | the guard holds exactly when the title is absent or made only of trimmable characters, the empty title included |
| `TasksRoute.GetResponse` | app/api/tasks/route.ts:8-19 | status 200 with the loaded list exactly when loading did not raise; otherwise status 500 with "Failed to fetch tasks" |
| `TasksRoute.PostResponse` | app/api/tasks/route.ts:24-42 | status 400 with "Title is required" exactly when the title is missing or blank; 201 with the created task exactly when the title passes and the create succeeded; every other case, an undecodable body or a failed create, is 500 with "Failed to create task" |
| `TasksRoute.PostRejectsBeforeCreate` | app/api/tasks/route.ts:29-31 | for a rejected title, the answer is 400 whatever the create would have produced |
| `TasksRoute.HandleGet` | app/api/tasks/route.ts:8-11 | against the repository, GET always answers 200 with the list a load reports |
| `TasksRoute.HandlePost` | app/api/tasks/route.ts:24-42 | a rejected or undecodable body leaves the data file unchanged; an accepted one appends `NewTask` of the body and answers 201 with it, or answers 500 and leaves the file unchanged when the save fails |
| `TaskListView.PriorityRank` | app/page.tsx:128-132 | the rank the priority sort uses lies between 1 and 3 |
| `TaskListView.FilterTasks` | app/page.tsx:118-123 | with "all", the list is kept whole; with one status, every kept task has that status; nothing is added |
| `TaskListView.FilterTasksMember` | app/page.tsx:121-123 | under a status filter, a task is shown exactly when it is in the list and has that status |
| `TaskListView.FilterTasksOrder` | app/page.tsx:121-123 | the filter keeps the list's relative order |
| `TaskListView.CompareAsWrittenInconsistent` | app/page.tsx:136-137 | the written due-date comparator says of two undated tasks that each one goes after the other, and does not compare an undated task equal to itself |
| `TaskListView.CompareCorrectsOnlyUndatedPairs` | app/page.tsx:126-145 | the corrected comparator differs from the written one only on two undated tasks under the due-date sort |
| `TaskListView.CompareAntisymmetric` | app/page.tsx:126-145 | swapping the arguments of the corrected comparator negates its value, and every task compares equal to itself |
| `TaskListView.CompareTransitive` | app/page.tsx:126-145 | the corrected comparator's "goes before or with" is transitive |
| `TaskListView.CompareTiesTransitive` | app/page.tsx:126-145 | two tasks that compare equal to a third compare equal to each other |
| `TaskListView.Insert` | app/page.tsx:126 | inserting adds exactly that one task and removes nothing |
| `TaskListView.InsertSorted` | app/page.tsx:126 | inserting into a sorted list keeps it sorted |
| `TaskListView.SortTasks` | app/page.tsx:126-145 | the result is a permutation of the input, of the same length, sorted by the chosen order |
| `TaskListView.InsertKeepsTies` | app/page.tsx:126 | the inserted task goes before the tasks it ties with, so the tied tasks keep their relative order |
| `TaskListView.SortTasksStable` | app/page.tsx:126 | tasks that compare equal keep their input order, as the stable built-in sort keeps them |
| `TaskListView.SortByPriorityBands` | app/page.tsx:127-133 | after the priority sort, every `High` task stands before every task that is not `High`, and every `Medium` task before every `Low` one |
| `TaskListView.SortByDueDateOrder` | app/page.tsx:134-138 | after the due-date sort, dated tasks are in ascending date order, and every undated task stands after every dated one |
| `TaskListView.SortByCreatedAtNewestFirst` | app/page.tsx:139-144 | after the creation-time sort, each task is at least as recent as the next one |
| `TaskListView.FilteredAndSorted` | app/page.tsx:117-148 | the displayed list is a permutation of the filtered list, so with "all" it holds every task; every task in it has the chosen status; it is sorted in the chosen order |
| `TaskListView.StatusCountsCover` | app/page.tsx:153-158 | the todo, in-progress and done counts add up to the number of tasks |
| `TaskListView.Stats` | app/page.tsx:153-158 | the total is the length of the whole list; each status count is the size of that status's filtered view; the three counts add up to the total |

## Left out

- File system plumbing (lib/tasks.ts:10-45): directory and file creation, reading, `JSON.parse`, `JSON.stringify` and logging. The data file is a field of the repository. A missing file reads as the empty list.
- `Tasks.TaskRepository.SaveTasks`: a failed write leaves the file as it was. A write that truncates the file and then fails (disk full) is not modelled.
- Id and clock generation (lib/tasks.ts:62,68): nondeterministic and foreign. They are parameters of `CreateTask`, and nothing claims the ids are unique.
- Concurrency: two requests that overlap can lose an update (the last save wins). The model is sequential.
- Dynamic types: JSON bodies are checked against no type at run time. A title that is not a string, a status or priority outside the enumerations, a `null` or an `id` or `createdAt` field in an update body: none of these is modelled. The model's inputs have the declared types.
- `TaskListView.SortByDueDateOrder`: dates are integer timestamps. An empty due-date string counts as undated in the source; here only a missing due date does. A date string that does not parse (`NaN` in the comparator) is not modelled.
- `TaskListView.SortTasks`: it sorts by the corrected comparator, because the written one is not consistent. For a consistent comparator, ECMAScript's `Array.prototype.sort` is a stable sort, and `SortTasks` is stable too. With the written comparator, the order the browser gives undated tasks is implementation-defined.
- React state, effects, fetch handlers, `confirm` and rendering in app/page.tsx (lines 9-114 and 160-267): presentation.
- components/TaskCard.tsx, FilterBar.tsx, PriorityBadge.tsx and StatusBadge.tsx: presentation. Their date formatting depends on the locale and the clock.
- The `/api/tasks/[id]` route (GET, PUT and DELETE by id) is not part of this model.

## Findings

| source | as written | input that shows it | evidently intended | confidence | as-written member | corrected member |
|---|---|---|---|---|---|---|
| app/page.tsx:136-137 | the due-date comparator returns 1 whenever `a` has no due date, even when `b` has none either | two tasks without a due date, or one such task compared with itself: both orders return 1 | two undated tasks compare equal (0), so undated tasks go last in their original order | high that the comparator is inconsistent; the visible effect depends on the engine's sort; not executed | `TaskListView.CompareAsWrittenInconsistent` | `TaskListView.CompareAntisymmetric` |
