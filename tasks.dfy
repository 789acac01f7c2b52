/**
 * The task repository (lib/tasks.ts). Every operation loads the whole
 * collection from the data file, changes it in memory and writes all of it
 * back. The data file is the field `document` of a `TaskRepository`; the
 * JSON encoding, the directory set-up and the logging are not modelled.
 * The id generator and the clock are parameters of `CreateTask`, and
 * whether the file system accepts a write is the parameter `canWrite`.
 */
module Tasks {
  import opened Wrappers
  import opened TaskTypes
  import JsArray

  /** The error `saveTasks` raises when the write does not complete ("Failed to save tasks"). */
  datatype Fault = SaveFailed

  /** The content of the data file: a list of tasks, or text that does not decode as one. */
  datatype Document = Decoded(tasks: seq<Task>) | Undecodable

  /** The list a load reports: a document that does not decode reads as no tasks at all. */
  function LoadTasks(d: Document): seq<Task> {
    match d
    case Decoded(ts) => ts
    case Undecodable => []
  }

  /** The predicate `task => task.id === id`. */
  function HasId(id: string): Task -> bool {
    (t: Task) => t.id == id
  }

  /** The predicate `task => task.id !== id`. */
  function LacksId(id: string): Task -> bool {
    (t: Task) => t.id != id
  }

  /**
   * The record `createTask` builds: id and createdAt from the generator and
   * the clock, title, description and dueDate copied, status and priority
   * defaulted to todo and medium when the input omits them.
   */
  function NewTask(input: CreateTaskDTO, id: string, now: Timestamp): (t: Task)
    ensures t.id == id && t.createdAt == now
    ensures t.title == input.title && t.description == input.description && t.dueDate == input.dueDate
    ensures input.status.None? ==> t.status == Todo
    ensures input.status.Some? ==> t.status == input.status.value
    ensures input.priority.None? ==> t.priority == Medium
    ensures input.priority.Some? ==> t.priority == input.priority.value
  {
    Task(
      id := id,
      title := input.title,
      description := input.description,
      status := input.status.GetOr(Todo),
      priority := input.priority.GetOr(Medium),
      dueDate := input.dueDate,
      createdAt := now)
  }

  /**
   * The shallow merge `{ ...task, ...updates }`: a field present in the
   * update replaces the stored one, an absent field keeps its value, and id
   * and createdAt, which an update cannot carry, never change.
   */
  function Merge(t: Task, u: UpdateTaskDTO): (r: Task)
    ensures r.id == t.id && r.createdAt == t.createdAt
    ensures u.title.Some? ==> r.title == u.title.value
    ensures u.title.None? ==> r.title == t.title
    ensures u.description.Some? ==> r.description == u.description
    ensures u.description.None? ==> r.description == t.description
    ensures u.status.Some? ==> r.status == u.status.value
    ensures u.status.None? ==> r.status == t.status
    ensures u.priority.Some? ==> r.priority == u.priority.value
    ensures u.priority.None? ==> r.priority == t.priority
    ensures u.dueDate.Some? ==> r.dueDate == u.dueDate
    ensures u.dueDate.None? ==> r.dueDate == t.dueDate
  {
    t.(
      title := u.title.GetOr(t.title),
      description := if u.description.Some? then u.description else t.description,
      status := u.status.GetOr(t.status),
      priority := u.priority.GetOr(t.priority),
      dueDate := if u.dueDate.Some? then u.dueDate else t.dueDate)
  }

  /** An update that carries no field leaves the task as it was. */
  lemma MergeEmpty(t: Task)
    ensures Merge(t, UpdateTaskDTO(None, None, None, None, None)) == t
  {
  }

  /** Applying the same update twice is applying it once. */
  lemma MergeIdempotent(t: Task, u: UpdateTaskDTO)
    ensures Merge(Merge(t, u), u) == Merge(t, u)
  {
  }

  /**
   * Looking up the id of a task just appended finds that task, unless an
   * earlier task already had the id, in which case the earlier one is found.
   */
  lemma {:induction false} FindAfterAppend(ts: seq<Task>, t: Task)
    ensures JsArray.Find(ts + [t], HasId(t.id)) ==
      if JsArray.Find(ts, HasId(t.id)).Some? then JsArray.Find(ts, HasId(t.id)) else Some(t)
  {
    if ts == [] {
      assert ts + [t] == [t];
    } else {
      assert (ts + [t])[0] == ts[0];
      assert (ts + [t])[1..] == ts[1..] + [t];
      FindAfterAppend(ts[1..], t);
    }
  }

  /** A task created with an id no stored task has is what a later lookup of that id returns. */
  lemma FindAfterCreate(ts: seq<Task>, input: CreateTaskDTO, id: string, now: Timestamp)
    requires forall i :: 0 <= i < |ts| ==> ts[i].id != id
    ensures JsArray.Find(ts + [NewTask(input, id, now)], HasId(id)) == Some(NewTask(input, id, now))
  {
    FindAfterAppend(ts, NewTask(input, id, now));
  }

  /**
   * After the task at the first matching index is replaced by its merge,
   * looking the id up again returns the merged task.
   */
  lemma FindAfterUpdate(ts: seq<Task>, id: string, u: UpdateTaskDTO)
    requires JsArray.FindIndex(ts, HasId(id)) != -1
    ensures var i := JsArray.FindIndex(ts, HasId(id));
      JsArray.Find(ts[i := Merge(ts[i], u)], HasId(id)) == Some(Merge(ts[i], u))
  {
  }

  /** After a delete no task with that id is left. */
  lemma FindAfterDelete(ts: seq<Task>, id: string)
    ensures JsArray.Find(JsArray.Filter(ts, LacksId(id)), HasId(id)) == None
  {
  }

  /**
   * The length test of `deleteTask`: the filtered list is as long as the
   * original exactly when no task has the id, and the list is then unchanged.
   */
  lemma DeleteFindsNothing(ts: seq<Task>, id: string)
    ensures |JsArray.Filter(ts, LacksId(id))| == |ts| <==> forall i :: 0 <= i < |ts| ==> ts[i].id != id
    ensures |JsArray.Filter(ts, LacksId(id))| == |ts| ==> JsArray.Filter(ts, LacksId(id)) == ts
  {
    JsArray.FilterKeepsAll(ts, LacksId(id));
  }

  /** A delete removes exactly the tasks that have the id: the kept and the removed add up to the whole. */
  lemma {:induction false} DeleteCount(ts: seq<Task>, id: string)
    ensures |JsArray.Filter(ts, LacksId(id))| + |JsArray.Filter(ts, HasId(id))| == |ts|
  {
    if ts != [] {
      DeleteCount(ts[1..], id);
    }
  }

  /** Deleting twice: the second delete finds nothing to remove. */
  lemma DeleteTwice(ts: seq<Task>, id: string)
    ensures var once := JsArray.Filter(ts, LacksId(id));
      JsArray.Filter(once, LacksId(id)) == once
  {
  }

  /** The repository over one data file. */
  class TaskRepository {
    /** What the data file holds. */
    var document: Document

    constructor(initial: Document)
      ensures document == initial
    {
      document := initial;
    }

    /** The tasks a load reports now. */
    function Tasks(): seq<Task>
      reads this
    {
      LoadTasks(document)
    }

    /** `getAllTasks`: the stored list, or the empty list when the file does not decode. */
    method GetAllTasks() returns (ts: seq<Task>)
      ensures document.Decoded? ==> ts == document.tasks
      ensures document.Undecodable? ==> ts == []
      ensures ts == Tasks()
    {
      ts := LoadTasks(document);
    }

    /** `saveTasks`: overwrite the file with the whole list, or fail and leave the file as it was. */
    method SaveTasks(ts: seq<Task>, canWrite: bool) returns (r: Result<(), Fault>)
      modifies this
      ensures r == if canWrite then Ok(()) else Err(SaveFailed)
      ensures document == if canWrite then Decoded(ts) else old(document)
    {
      if !canWrite {
        return Err(SaveFailed);
      }
      document := Decoded(ts);
      return Ok(());
    }

    /** `getTaskById`: the first stored task with the id, or nothing when none has it. */
    method GetTaskById(id: string) returns (r: Option<Task>)
      ensures r.None? <==> forall i :: 0 <= i < |Tasks()| ==> Tasks()[i].id != id
      ensures r.Some? ==> r == Some(Tasks()[JsArray.FindIndex(Tasks(), HasId(id))])
      ensures r.Some? ==> r.value.id == id && exists k ::
        0 <= k < |Tasks()| && Tasks()[k] == r.value && forall j :: 0 <= j < k ==> Tasks()[j].id != id
    {
      var tasks := GetAllTasks();
      r := JsArray.Find(tasks, HasId(id));
      JsArray.FindAtFindIndex(tasks, HasId(id));
    }

    /**
     * `createTask`: append the new record and save. The stored list becomes
     * the loaded one plus the new task at the end (a file that did not decode
     * is thereby replaced by a list holding only the new task).
     */
    method CreateTask(input: CreateTaskDTO, id: string, now: Timestamp, canWrite: bool) returns (r: Result<Task, Fault>)
      modifies this
      ensures var t := NewTask(input, id, now);
        if canWrite then r == Ok(t) && document == Decoded(old(Tasks()) + [t])
        else r == Err(SaveFailed) && document == old(document)
    {
      var tasks := GetAllTasks();
      var newTask := NewTask(input, id, now);
      tasks := tasks + [newTask];
      var saved := SaveTasks(tasks, canWrite);
      if saved.Err? {
        return Err(SaveFailed);
      }
      return Ok(newTask);
    }

    /**
     * `updateTask`: merge the update into the first task with the id and
     * save. With no such task nothing is written and the result is "not
     * found"; otherwise only that element changes and the merged task is
     * returned.
     */
    method UpdateTask(id: string, updates: UpdateTaskDTO, canWrite: bool) returns (r: Result<Option<Task>, Fault>)
      modifies this
      ensures r == Ok(None) <==> forall i :: 0 <= i < |old(Tasks())| ==> old(Tasks())[i].id != id
      ensures var ts := old(Tasks()); var i := JsArray.FindIndex(ts, HasId(id));
        if i == -1 then r == Ok(None) && document == old(document)
        else if canWrite then r == Ok(Some(Merge(ts[i], updates))) && document == Decoded(ts[i := Merge(ts[i], updates)])
        else r == Err(SaveFailed) && document == old(document)
    {
      var tasks := GetAllTasks();
      var taskIndex := JsArray.FindIndex(tasks, HasId(id));
      if taskIndex == -1 {
        return Ok(None);
      }
      var updatedTask := Merge(tasks[taskIndex], updates);
      tasks := tasks[taskIndex := updatedTask];
      var saved := SaveTasks(tasks, canWrite);
      if saved.Err? {
        return Err(SaveFailed);
      }
      return Ok(Some(updatedTask));
    }

    /**
     * `deleteTask`: drop every task with the id, keeping the others in
     * order, and save only when something was dropped. The result is false,
     * with nothing written, exactly when no task has the id.
     */
    method DeleteTask(id: string, canWrite: bool) returns (r: Result<bool, Fault>)
      modifies this
      ensures r == Ok(false) <==> forall i :: 0 <= i < |old(Tasks())| ==> old(Tasks())[i].id != id
      ensures var ts := old(Tasks()); var kept := JsArray.Filter(ts, LacksId(id));
        if |kept| == |ts| then r == Ok(false) && document == old(document)
        else if canWrite then r == Ok(true) && document == Decoded(kept)
        else r == Err(SaveFailed) && document == old(document)
    {
      var tasks := GetAllTasks();
      var filteredTasks := JsArray.Filter(tasks, LacksId(id));
      DeleteFindsNothing(tasks, id);
      if |filteredTasks| == |tasks| {
        return Ok(false);
      }
      var saved := SaveTasks(filteredTasks, canWrite);
      if saved.Err? {
        return Err(SaveFailed);
      }
      return Ok(true);
    }
  }
}
