/**
 * The task list of the home page (app/page.tsx): the status filter, the
 * three sort orders, and the per-status counts. All of it works on values:
 * the filter and the sort build new lists and leave the page's task list
 * as it was.
 *
 * `Array.prototype.sort` is stable, and with a consistent comparator its
 * result is the stable sort by that comparator. The due-date comparator as
 * written is not consistent (see `CompareAsWritten`), so the sort is
 * specified by the corrected comparator `Compare`, and `SortTasks` is a
 * stable insertion sort by it.
 */
module TaskListView {
  import opened Wrappers
  import opened TaskTypes
  import JsArray

  /** The filter control: every status, or one of them. */
  datatype StatusFilter = AllStatuses | OnlyStatus(status: TaskStatus)

  /** The sort control. */
  datatype SortBy = ByPriority | ByDueDate | ByCreatedAt

  /** The predicate `task => task.status === status`. */
  function HasStatus(s: TaskStatus): Task -> bool {
    (t: Task) => t.status == s
  }

  /** The rank the priority sort uses: high 3, medium 2, low 1. */
  function PriorityRank(p: TaskPriority): (r: int)
    ensures 1 <= r <= 3
  {
    match p
    case High => 3
    case Medium => 2
    case Low => 1
  }

  /**
   * The status filter: with every status the list is kept whole; with one
   * status exactly the tasks of that status are kept.
   */
  function FilterTasks(ts: seq<Task>, f: StatusFilter): (r: seq<Task>)
    ensures f.AllStatuses? ==> r == ts
    ensures f.OnlyStatus? ==> forall i :: 0 <= i < |r| ==> r[i].status == f.status
    ensures multiset(r) <= multiset(ts)
  {
    match f
    case AllStatuses => ts
    case OnlyStatus(s) => JsArray.Filter(ts, HasStatus(s))
  }

  /** A task is shown under a status filter exactly when it is in the list and has that status. */
  lemma FilterTasksMember(ts: seq<Task>, s: TaskStatus, t: Task)
    ensures t in FilterTasks(ts, OnlyStatus(s)) <==> t in ts && t.status == s
  {
    JsArray.FilterMember(ts, HasStatus(s), t);
  }

  /** The filter keeps the relative order of the list: filtering a concatenation concatenates the filtered parts. */
  lemma FilterTasksOrder(a: seq<Task>, b: seq<Task>, f: StatusFilter)
    ensures FilterTasks(a + b, f) == FilterTasks(a, f) + FilterTasks(b, f)
  {
    if f.OnlyStatus? {
      JsArray.FilterConcat(a, b, HasStatus(f.status));
    }
  }

  /**
   * The comparator passed to `sort`, as written: by priority rank
   * descending, by due date ascending with a task lacking a due date sent
   * after the other one, or by creation time newest first. A negative
   * value puts `a` first.
   */
  function CompareAsWritten(order: SortBy, a: Task, b: Task): int {
    match order
    case ByPriority => PriorityRank(b.priority) - PriorityRank(a.priority)
    case ByDueDate =>
      if a.dueDate.None? then 1
      else if b.dueDate.None? then -1
      else a.dueDate.value - b.dueDate.value
    case ByCreatedAt => b.createdAt - a.createdAt
  }

  /**
   * The comparator as intended: the same, except that two tasks that both
   * lack a due date compare equal.
   */
  function Compare(order: SortBy, a: Task, b: Task): int {
    if order.ByDueDate? && a.dueDate.None? && b.dueDate.None? then 0
    else CompareAsWritten(order, a, b)
  }

  /**
   * The written comparator is not consistent: for two tasks without a due
   * date it claims each goes after the other, and it does not even compare
   * such a task equal to itself.
   */
  lemma CompareAsWrittenInconsistent()
    ensures exists a: Task, b: Task ::
      CompareAsWritten(ByDueDate, a, b) > 0 && CompareAsWritten(ByDueDate, b, a) > 0
    ensures exists a: Task :: CompareAsWritten(ByDueDate, a, a) != 0
  {
    var a := Task("a", "first", None, Todo, Medium, None, 0);
    var b := Task("b", "second", None, Todo, Medium, None, 0);
    assert CompareAsWritten(ByDueDate, a, b) > 0 && CompareAsWritten(ByDueDate, b, a) > 0;
    assert CompareAsWritten(ByDueDate, a, a) != 0;
  }

  /** The correction changes the written comparator on just one input: two undated tasks under the due-date sort. */
  lemma CompareCorrectsOnlyUndatedPairs(order: SortBy, a: Task, b: Task)
    ensures Compare(order, a, b) != CompareAsWritten(order, a, b) <==>
      order.ByDueDate? && a.dueDate.None? && b.dueDate.None?
  {
  }

  /** The corrected comparator is antisymmetric and reflexive, as a consistent comparator must be. */
  lemma CompareAntisymmetric(order: SortBy, a: Task, b: Task)
    ensures Compare(order, a, b) == -Compare(order, b, a)
    ensures Compare(order, a, a) == 0
  {
  }

  /** The corrected comparator is transitive. */
  lemma CompareTransitive(order: SortBy, a: Task, b: Task, c: Task)
    requires Compare(order, a, b) <= 0 && Compare(order, b, c) <= 0
    ensures Compare(order, a, c) <= 0
  {
  }

  /** Comparing equal is an equivalence: two tasks equal to a third are equal to each other. */
  lemma CompareTiesTransitive(order: SortBy, a: Task, b: Task, c: Task)
    requires Compare(order, a, c) == 0 && Compare(order, b, c) == 0
    ensures Compare(order, a, b) == 0
  {
  }

  /** `a` may come before `b` in the sorted list. */
  predicate InOrder(order: SortBy, a: Task, b: Task) {
    Compare(order, a, b) <= 0
  }

  /** Every task stands before every later one in the order chosen. */
  predicate Sorted(order: SortBy, s: seq<Task>) {
    forall i, j :: 0 <= i < j < |s| ==> InOrder(order, s[i], s[j])
  }

  /** `t` placed into the list `s` before the first task it may precede. */
  function Insert(order: SortBy, t: Task, s: seq<Task>): (r: seq<Task>)
    ensures multiset(r) == multiset(s) + multiset{t}
  {
    if s == [] then [t]
    else if InOrder(order, t, s[0]) then [t] + s
    else
      assert s == [s[0]] + s[1..];
      [s[0]] + Insert(order, t, s[1..])
  }

  /** A task that may precede every task of a sorted list keeps it sorted when put in front. */
  lemma PrependSorted(order: SortBy, t: Task, s: seq<Task>)
    requires Sorted(order, s)
    requires forall j :: 0 <= j < |s| ==> InOrder(order, t, s[j])
    ensures Sorted(order, [t] + s)
  {
  }

  /** Inserting into a sorted list keeps it sorted. */
  lemma {:induction false} InsertSorted(order: SortBy, t: Task, s: seq<Task>)
    requires Sorted(order, s)
    ensures Sorted(order, Insert(order, t, s))
  {
    if s == [] {
    } else if InOrder(order, t, s[0]) {
      forall j | 0 <= j < |s| ensures InOrder(order, t, s[j]) {
        if j > 0 {
          CompareTransitive(order, t, s[0], s[j]);
        }
      }
      PrependSorted(order, t, s);
    } else {
      var rest := Insert(order, t, s[1..]);
      assert s == [s[0]] + s[1..];
      assert Sorted(order, s[1..]);
      InsertSorted(order, t, s[1..]);
      CompareAntisymmetric(order, t, s[0]);
      forall j | 0 <= j < |rest| ensures InOrder(order, s[0], rest[j]) {
        assert rest[j] in multiset(rest);
        assert rest[j] == t || rest[j] in s[1..];
      }
      PrependSorted(order, s[0], rest);
    }
  }

  /** The list sorted by the chosen order: a sorted permutation of the input. */
  function SortTasks(order: SortBy, s: seq<Task>): (r: seq<Task>)
    ensures multiset(r) == multiset(s)
    ensures |r| == |s|
    ensures Sorted(order, r)
  {
    if s == [] then []
    else
      assert s == [s[0]] + s[1..];
      var sortedRest := SortTasks(order, s[1..]);
      InsertSorted(order, s[0], sortedRest);
      var r := Insert(order, s[0], sortedRest);
      assert |r| == |multiset(r)|;
      r
  }

  /** The predicate "compares equal to `t`" under the chosen order. */
  function TiedWith(order: SortBy, t: Task): Task -> bool {
    (x: Task) => Compare(order, x, t) == 0
  }

  /** Inserting `x` puts it before the tasks it ties with, so their relative order is kept. */
  lemma {:induction false} InsertKeepsTies(order: SortBy, x: Task, s: seq<Task>, t: Task)
    ensures JsArray.Filter(Insert(order, x, s), TiedWith(order, t)) ==
      if Compare(order, x, t) == 0 then [x] + JsArray.Filter(s, TiedWith(order, t))
      else JsArray.Filter(s, TiedWith(order, t))
  {
    var p := TiedWith(order, t);
    if s == [] {
    } else if InOrder(order, x, s[0]) {
      assert Insert(order, x, s) == [x] + s;
      assert ([x] + s)[1..] == s;
    } else {
      var rest := Insert(order, x, s[1..]);
      assert Insert(order, x, s) == [s[0]] + rest;
      assert ([s[0]] + rest)[1..] == rest;
      InsertKeepsTies(order, x, s[1..], t);
      if Compare(order, x, t) == 0 && Compare(order, s[0], t) == 0 {
        CompareTiesTransitive(order, x, s[0], t);
        assert false;
      }
    }
  }

  /**
   * The sort is stable: among tasks that compare equal, the sorted list
   * keeps the order of the input, as `Array.prototype.sort` does.
   */
  lemma {:induction false} SortTasksStable(order: SortBy, s: seq<Task>, t: Task)
    ensures JsArray.Filter(SortTasks(order, s), TiedWith(order, t)) == JsArray.Filter(s, TiedWith(order, t))
  {
    if s != [] {
      SortTasksStable(order, s[1..], t);
      InsertKeepsTies(order, s[0], SortTasks(order, s[1..]), t);
    }
  }

  /** Sorting by priority puts every high task before every medium one, and every medium before every low one. */
  lemma SortByPriorityBands(s: seq<Task>)
    ensures var r := SortTasks(ByPriority, s);
      (forall i, j :: 0 <= i < |r| && 0 <= j < |r| && r[i].priority == High && r[j].priority != High ==> i < j)
      && (forall i, j :: 0 <= i < |r| && 0 <= j < |r| && r[i].priority == Medium && r[j].priority == Low ==> i < j)
  {
    var r := SortTasks(ByPriority, s);
    assert Sorted(ByPriority, r);
    assert forall i, j :: 0 <= i < j < |r| ==> PriorityRank(r[i].priority) >= PriorityRank(r[j].priority);
  }

  /** Sorting by due date puts dated tasks in ascending date order and every undated task after all dated ones. */
  lemma SortByDueDateOrder(s: seq<Task>)
    ensures var r := SortTasks(ByDueDate, s);
      (forall i, j :: 0 <= i < j < |r| && r[i].dueDate.Some? && r[j].dueDate.Some? ==>
        r[i].dueDate.value <= r[j].dueDate.value)
      && (forall i, j :: 0 <= i < |r| && 0 <= j < |r| && r[i].dueDate.Some? && r[j].dueDate.None? ==> i < j)
  {
    var r := SortTasks(ByDueDate, s);
    assert Sorted(ByDueDate, r);
    forall i, j | 0 <= i < j < |r| && r[i].dueDate.Some? && r[j].dueDate.Some?
      ensures r[i].dueDate.value <= r[j].dueDate.value
    {
      assert InOrder(ByDueDate, r[i], r[j]);
    }
  }

  /** Sorting by creation time puts newer tasks first: each task is at least as recent as the next. */
  lemma SortByCreatedAtNewestFirst(s: seq<Task>)
    ensures var r := SortTasks(ByCreatedAt, s);
      forall i :: 0 <= i < |r| - 1 ==> r[i].createdAt >= r[i + 1].createdAt
  {
  }

  /**
   * `getFilteredAndSortedTasks`: the filtered list sorted in the chosen
   * order: exactly the filtered tasks, each as often as there, in order.
   */
  function FilteredAndSorted(ts: seq<Task>, f: StatusFilter, order: SortBy): (r: seq<Task>)
    ensures multiset(r) == multiset(FilterTasks(ts, f))
    ensures f.AllStatuses? ==> multiset(r) == multiset(ts)
    ensures f.OnlyStatus? ==> forall i :: 0 <= i < |r| ==> r[i].status == f.status
    ensures Sorted(order, r)
  {
    var filtered := FilterTasks(ts, f);
    var r := SortTasks(order, filtered);
    assert forall i :: 0 <= i < |r| ==> r[i] in multiset(filtered);
    r
  }

  /** The counts above the list. */
  datatype TaskStats = TaskStats(total: nat, todo: nat, inProgress: nat, done: nat)

  /** Every task has exactly one of the three statuses, so the three counts add up to the length. */
  lemma {:induction false} StatusCountsCover(ts: seq<Task>)
    ensures |JsArray.Filter(ts, HasStatus(Todo))| + |JsArray.Filter(ts, HasStatus(InProgress))|
      + |JsArray.Filter(ts, HasStatus(Done))| == |ts|
  {
    if ts != [] {
      StatusCountsCover(ts[1..]);
    }
  }

  /**
   * `stats`, over the whole task list (not the filtered one): the total,
   * and per status the number of tasks the filter for that status shows.
   * The three per-status counts add up to the total.
   */
  function Stats(ts: seq<Task>): (r: TaskStats)
    ensures r.total == |ts|
    ensures r.todo == |FilterTasks(ts, OnlyStatus(Todo))|
    ensures r.inProgress == |FilterTasks(ts, OnlyStatus(InProgress))|
    ensures r.done == |FilterTasks(ts, OnlyStatus(Done))|
    ensures r.todo + r.inProgress + r.done == r.total
  {
    StatusCountsCover(ts);
    TaskStats(
      total := |ts|,
      todo := |JsArray.Filter(ts, HasStatus(Todo))|,
      inProgress := |JsArray.Filter(ts, HasStatus(InProgress))|,
      done := |JsArray.Filter(ts, HasStatus(Done))|)
  }
}
