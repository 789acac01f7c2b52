/**
 * The collection endpoint /api/tasks (app/api/tasks/route.ts): GET lists
 * the stored tasks, POST validates the title and creates a task. A handler
 * is a function from what it received (the decoded request body, the
 * repository's outcome) to a status code and a JSON payload; `HandleGet`
 * and `HandlePost` run the same decisions against a `TaskRepository`.
 */
module TasksRoute {
  import opened Wrappers
  import opened TaskTypes
  import opened Tasks

  /** The JSON body of a response. */
  datatype Payload = TaskList(tasks: seq<Task>) | OneTask(task: Task) | ErrorMessage(error: string)

  datatype Response = Response(status: int, payload: Payload)

  /**
   * A POST body as it arrives: typed as a create input, but nothing
   * guarantees the title is there.
   */
  datatype PostBody = PostBody(
    title: Option<string>,
    description: Option<string>,
    status: Option<TaskStatus>,
    priority: Option<TaskPriority>,
    dueDate: Option<Timestamp>)

  /**
   * The characters `String.prototype.trim` removes: the ECMAScript
   * WhiteSpace code points (tab, vertical tab, form feed, the byte order
   * mark and every space separator) and the LineTerminator code points.
   */
  predicate IsTrimmable(c: char) {
    c == '\t' || c == '\U{000B}' || c == '\U{000C}' || c == '\U{FEFF}'
    || c == ' ' || c == '\U{00A0}' || c == '\U{1680}' || ('\U{2000}' <= c <= '\U{200A}')
    || c == '\U{202F}' || c == '\U{205F}' || c == '\U{3000}'
    || c == '\n' || c == '\r' || c == '\U{2028}' || c == '\U{2029}'
  }

  /** Every character of `s` is one `trim` removes. */
  predicate Blank(s: string) {
    forall i :: 0 <= i < |s| ==> IsTrimmable(s[i])
  }

  /** How many trimmable characters `s` starts with: all of those are trimmable, and the next one is not. */
  function LeadingBlanks(s: string): (k: nat)
    ensures k <= |s|
    ensures forall i :: 0 <= i < k ==> IsTrimmable(s[i])
    ensures k == |s| || !IsTrimmable(s[k])
  {
    if s == [] || !IsTrimmable(s[0]) then 0 else 1 + LeadingBlanks(s[1..])
  }

  /** How many trimmable characters `s` ends with: all of those are trimmable, and the one before them is not. */
  function TrailingBlanks(s: string): (n: nat)
    ensures n <= |s|
    ensures forall i :: |s| - n <= i < |s| ==> IsTrimmable(s[i])
    ensures n == |s| || !IsTrimmable(s[|s| - n - 1])
  {
    if s == [] || !IsTrimmable(s[|s| - 1]) then 0 else 1 + TrailingBlanks(s[..|s| - 1])
  }

  /**
   * `s.trim()`: the slice of `s` left after removing the trimmable
   * characters at both ends; it is empty exactly when `s` is blank, and
   * otherwise starts and ends with a kept character.
   */
  function Trim(s: string): (r: string)
    ensures var k := LeadingBlanks(s);
      k + |r| <= |s| && r == s[k..k + |r|] && Blank(s[..k]) && Blank(s[k + |r|..])
    ensures r == "" <==> Blank(s)
    ensures r != "" ==> !IsTrimmable(r[0]) && !IsTrimmable(r[|r| - 1])
  {
    var k := LeadingBlanks(s);
    if k == |s| then "" else s[k..|s| - TrailingBlanks(s)]
  }

  /** The POST guard `!body.title || body.title.trim() === ""`: no title, or one made only of trimmable characters. */
  function TitleMissing(title: Option<string>): (r: bool)
    ensures r <==> title.None? || Blank(title.value)
  {
    title.None? || title.value == "" || Trim(title.value) == ""
  }

  /** The body handed to `createTask`, once the title is known to be there. */
  function CreateInput(body: PostBody): CreateTaskDTO
    requires body.title.Some?
  {
    CreateTaskDTO(body.title.value, body.description, body.status, body.priority, body.dueDate)
  }

  /**
   * GET /api/tasks: the loaded list with status 200, or, when loading
   * raised a fault (`None`), status 500 with "Failed to fetch tasks".
   */
  function GetResponse(loaded: Option<seq<Task>>): (r: Response)
    ensures r.status == 200 || r.status == 500
    ensures r.status == 200 <==> loaded.Some?
    ensures r.status == 200 ==> r.payload == TaskList(loaded.value)
    ensures r.status == 500 ==> r.payload == ErrorMessage("Failed to fetch tasks")
  {
    match loaded
    case Some(ts) => Response(200, TaskList(ts))
    case None => Response(500, ErrorMessage("Failed to fetch tasks"))
  }

  /**
   * POST /api/tasks. `body` is the decoded request (`None` when decoding
   * raised); `created` is what `createTask` produced, consulted only once the
   * title has passed the guard. A missing or blank title gives 400 with
   * "Title is required"; a created task gives 201 with that task; every
   * fault gives 500 with "Failed to create task".
   */
  function PostResponse(body: Option<PostBody>, created: Result<Task, Fault>): (r: Response)
    ensures r.status == 400 <==> body.Some? && TitleMissing(body.value.title)
    ensures r.status == 400 ==> r.payload == ErrorMessage("Title is required")
    ensures r.status == 201 <==> body.Some? && !TitleMissing(body.value.title) && created.Ok?
    ensures r.status == 201 ==> r.payload == OneTask(created.value)
    ensures r.status != 400 && r.status != 201 ==> r == Response(500, ErrorMessage("Failed to create task"))
  {
    if body.None? then Response(500, ErrorMessage("Failed to create task"))
    else if TitleMissing(body.value.title) then Response(400, ErrorMessage("Title is required"))
    else match created
      case Ok(t) => Response(201, OneTask(t))
      case Err(_) => Response(500, ErrorMessage("Failed to create task"))
  }

  /** A rejected title gives the same answer whatever `createTask` would have done. */
  lemma PostRejectsBeforeCreate(body: PostBody, a: Result<Task, Fault>, b: Result<Task, Fault>)
    requires TitleMissing(body.title)
    ensures PostResponse(Some(body), a) == PostResponse(Some(body), b) == Response(400, ErrorMessage("Title is required"))
  {
  }

  /**
   * GET /api/tasks against the repository: loading never raises (a file
   * that does not decode reads as the empty list), so the answer is always
   * 200 with the stored tasks.
   */
  method HandleGet(repo: TaskRepository) returns (resp: Response)
    ensures resp == Response(200, TaskList(repo.Tasks()))
  {
    var tasks := repo.GetAllTasks();
    resp := GetResponse(Some(tasks));
  }

  /**
   * POST /api/tasks against the repository. A rejected body leaves the data
   * file as it was; an accepted one is created exactly as `CreateTask`
   * does, and the answer is 201 with the new task, or 500 when the save
   * fails.
   */
  method HandlePost(repo: TaskRepository, body: Option<PostBody>, id: string, now: Timestamp, canWrite: bool)
    returns (resp: Response)
    modifies repo
    ensures body.None? ==> repo.document == old(repo.document) && resp == Response(500, ErrorMessage("Failed to create task"))
    ensures body.Some? && TitleMissing(body.value.title) ==>
      repo.document == old(repo.document) && resp == Response(400, ErrorMessage("Title is required"))
    ensures body.Some? && !TitleMissing(body.value.title) ==>
      var t := NewTask(CreateInput(body.value), id, now);
      if canWrite then repo.document == Decoded(old(repo.Tasks()) + [t]) && resp == Response(201, OneTask(t))
      else repo.document == old(repo.document) && resp == Response(500, ErrorMessage("Failed to create task"))
  {
    if body.None? || TitleMissing(body.value.title) {
      resp := PostResponse(body, Err(SaveFailed));
      return;
    }
    var created := repo.CreateTask(CreateInput(body.value), id, now, canWrite);
    resp := PostResponse(body, created);
  }
}
