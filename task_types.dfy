/**
 * The task record and the two input shapes the repository accepts
 * (types/task.ts). Optional fields are `Option`s; the two enumerations are
 * datatypes whose wire spellings are given by `StatusName` and `PriorityName`.
 * Dates are abstract integer timestamps (milliseconds), standing for the
 * ISO 8601 strings the record stores.
 */
module TaskTypes {
  import opened Wrappers

  /** A point in time, as the milliseconds `Date.getTime()` yields for a stored ISO string. */
  type Timestamp = int

  datatype TaskStatus = Todo | InProgress | Done

  datatype TaskPriority = Low | Medium | High

  /** A stored task: id, title, status, priority and createdAt are always present. */
  datatype Task = Task(
    id: string,
    title: string,
    description: Option<string>,
    status: TaskStatus,
    priority: TaskPriority,
    dueDate: Option<Timestamp>,
    createdAt: Timestamp)

  /** The input to create: a title is required, everything else may be omitted. */
  datatype CreateTaskDTO = CreateTaskDTO(
    title: string,
    description: Option<string>,
    status: Option<TaskStatus>,
    priority: Option<TaskPriority>,
    dueDate: Option<Timestamp>)

  /**
   * The input to update: each of the five editable fields may be omitted.
   * There is no id and no createdAt field.
   */
  datatype UpdateTaskDTO = UpdateTaskDTO(
    title: Option<string>,
    description: Option<string>,
    status: Option<TaskStatus>,
    priority: Option<TaskPriority>,
    dueDate: Option<Timestamp>)

  /** The string a status is written as; each status has its own, and it reads back as that status. */
  function StatusName(s: TaskStatus): (name: string)
    ensures ParseStatus(name) == Some(s)
  {
    match s
    case Todo => "todo"
    case InProgress => "in-progress"
    case Done => "done"
  }

  /** The status a string names: exactly the three spellings of the union type name one. */
  function ParseStatus(name: string): (r: Option<TaskStatus>)
    ensures r.Some? <==> name in {"todo", "in-progress", "done"}
  {
    if name == "todo" then Some(Todo)
    else if name == "in-progress" then Some(InProgress)
    else if name == "done" then Some(Done)
    else None
  }

  /** The string a priority is written as; each priority has its own, and it reads back as that priority. */
  function PriorityName(p: TaskPriority): (name: string)
    ensures ParsePriority(name) == Some(p)
  {
    match p
    case Low => "low"
    case Medium => "medium"
    case High => "high"
  }

  /** The priority a string names: exactly the three spellings of the union type name one. */
  function ParsePriority(name: string): (r: Option<TaskPriority>)
    ensures r.Some? <==> name in {"low", "medium", "high"}
  {
    if name == "low" then Some(Low)
    else if name == "medium" then Some(Medium)
    else if name == "high" then Some(High)
    else None
  }
}
